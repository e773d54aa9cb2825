/**
  The page loops that process the events of a block (packages/util/src/common.ts), with the indexer's
  watched contracts and the block's progress changed in place, proved against the orders of EventOrder.
*/
module EventProcessors {
  import opened EventOrder
  import opened Wrappers

  const DEFAULT_EVENTS_IN_BATCH: nat := 50

  function Min(a: nat, b: nat): nat {
    if a <= b then a else b
  }

  /** The events before a page. */
  function Skip(page: nat, eventsInBatch: nat): (n: nat)
    ensures n == page * eventsInBatch
  {
    if page == 0 then 0 else Skip(page - 1, eventsInBatch) + eventsInBatch
  }

  /** getBlockEvents of a block: none when the block has been pruned. */
  function BlockEvents(stored: seq<Event>, isPruned: bool): seq<Event> {
    if isPruned then [] else stored
  }

  /** With skip and limit. */
  function Page(rows: seq<Event>, eventsInBatch: nat, page: nat): seq<Event> {
    rows[Min(Skip(page, eventsInBatch), |rows|)..Min(Skip(page + 1, eventsInBatch), |rows|)]
  }

  /** numFetchedEvents after so many pages. */
  function NumFetched(rows: seq<Event>, eventsInBatch: nat, pages: nat): nat {
    if pages == 0 then 0
    else NumFetched(rows, eventsInBatch, pages - 1) + |Page(rows, eventsInBatch, pages - 1)|
  }

  ghost predicate Rising(marks: seq<int>) {
    forall i, j | 0 <= i < j < |marks| :: marks[i] < marks[j]
  }

  /** The last value of the index, which is -1 at first. */
  function LastMark(marks: seq<int>): int {
    if marks == [] then -1 else marks[|marks| - 1]
  }

  function Indices(events: seq<Event>): (r: seq<int>)
    ensures |r| == |events|
  {
    seq(|events|, i requires 0 <= i < |events| => events[i].index)
  }

  function Later(a: int, b: int): int {
    if a < b then b else a
  }

  /** The values of the index once it has moved on for each event, by one or, if that is more, to the
      event's own. */
  function MarksAfter(marked: seq<int>, events: seq<Event>): seq<int> {
    if events == [] then marked
    else
      var marks := MarksAfter(marked, events[..|events| - 1]);
      marks + [Later(LastMark(marks) + 1, events[|events| - 1].index)]
  }

  /** Each value is one more than the one before or the event's own index, whichever is more. */
  lemma {:induction false} MarksAfterExact(marked: seq<int>, events: seq<Event>)
    ensures var marks := MarksAfter(marked, events);
      && |marks| == |marked| + |events| && marks[..|marked|] == marked
      && forall i | 0 <= i < |events| ::
           && LastMark(marks[..|marked| + i]) < marks[|marked| + i] && events[i].index <= marks[|marked| + i]
           && marks[|marked| + i] in {LastMark(marks[..|marked| + i]) + 1, events[i].index}
  {
    if events != [] {
      var init := events[..|events| - 1];
      var marks := MarksAfter(marked, init);
      MarksAfterExact(marked, init);
      assert MarksAfter(marked, events)[..|marks|] == marks;
      assert forall n | 0 <= n <= |marks| :: MarksAfter(marked, events)[..n] == marks[..n];
    }
  }

  class BlockProcessor {
    const handlers: Handlers
    const parse: Parser
    /** Whether there is a handler for blocks. */
    const handlesBlocks: bool
    /** The rows that the block has, by index. */
    const saved: seq<Event>
    /** How many events the block was saved with. */
    const numEvents: nat

    var watched: set<string>
    var lastProcessedEventIndex: int
    var numProcessedEvents: nat
    var isComplete: bool
    /** The calls of processEvent. */
    var handled: seq<Event>
    /** The calls of processBlockAfterEvents, by the number of events handled before. */
    var blockCalls: seq<nat>
    /** The values that lastProcessedEventIndex has had. */
    ghost var marks: seq<int>

    constructor (saved: seq<Event>, numEvents: nat, watched: set<string>, handlers: Handlers, parse: Parser,
        handlesBlocks: bool)
      ensures this.saved == saved && this.numEvents == numEvents && this.watched == watched
      ensures this.handlers == handlers && this.parse == parse && this.handlesBlocks == handlesBlocks
      ensures Counted() && marks == [] && handled == [] && blockCalls == [] && !isComplete
    {
      this.saved, this.numEvents, this.watched := saved, numEvents, watched;
      this.handlers, this.parse, this.handlesBlocks := handlers, parse, handlesBlocks;
      lastProcessedEventIndex, numProcessedEvents, isComplete := -1, 0, false;
      handled, blockCalls, marks := [], [], [];
    }

    /** All the events that the block was saved with are found. */
    ghost predicate AllFound() {
      numEvents == |saved|
    }

    /** The counter counts the updates of the index, and the index only went up. */
    ghost predicate Counted()
      reads this
    {
      numProcessedEvents == |marks| && Rising(marks) && lastProcessedEventIndex == LastMark(marks)
    }

    /** getBlockEvents with skip and limit. */
    method GetEventsBatch(eventsInBatch: nat, page: nat) returns (events: seq<Event>)
      ensures events == Page(saved, eventsInBatch, page)
    {
      var skip := page * eventsInBatch;
      events := saved[Min(skip, |saved|)..Min(skip + eventsInBatch, |saved|)];
    }

    /** indexer.processEvent. */
    method ProcessEvent(e: Event)
      modifies this`handled, this`watched
      ensures handled == old(handled) + [e] && watched == old(watched) + handlers(handled)
    {
      handled := handled + [e];
      watched := watched + handlers(handled);
    }

    method Advance(index: int)
      requires Counted() && lastProcessedEventIndex < index
      modifies this`lastProcessedEventIndex, this`numProcessedEvents, this`marks
      ensures Counted() && lastProcessedEventIndex == index && marks == old(marks) + [index]
    {
      lastProcessedEventIndex := index;
      numProcessedEvents := numProcessedEvents + 1;
      marks := marks + [index];
    }

    /** The loop over the events of one page whose contracts were watched at the start. */
    method ProcessKnown(events: seq<Event>)
      requires Counted() && Ascending(events)
      requires forall i | 0 <= i < |events| :: lastProcessedEventIndex < events[i].index
      modifies this
      ensures Counted() && marks == old(marks) + Indices(events)
      ensures handled == old(handled) + events
      ensures watched == WatchedAfter(old(watched), handlers, old(handled), events)
      ensures lastProcessedEventIndex == if events == [] then old(lastProcessedEventIndex)
          else events[|events| - 1].index
      ensures isComplete == old(isComplete) && blockCalls == old(blockCalls)
    {
      for i := 0 to |events|
        invariant Counted() && marks == old(marks) + Indices(events[..i]) && isComplete == old(isComplete)
            && blockCalls == old(blockCalls)
        invariant handled == old(handled) + events[..i]
        invariant watched == WatchedAfter(old(watched), handlers, old(handled), events[..i])
        invariant lastProcessedEventIndex == if i == 0 then old(lastProcessedEventIndex) else events[i - 1].index
      {
        assert events[..i + 1][..i] == events[..i] && old(handled) + events[..i + 1] == handled + [events[i]];
        ProcessEvent(events[i]);
        Advance(events[i].index);
      }
      assert events[..|events|] == events;
    }

    /** The last loop: the events of newly watched contracts. */
    method ProcessParsed(events: seq<Event>)
      requires Counted()
      modifies this
      ensures Counted() && marks == MarksAfter(old(marks), events)
      ensures isComplete == old(isComplete) && blockCalls == old(blockCalls)
      ensures handled == old(handled) + events
    {
      for i := 0 to |events|
        invariant Counted() && marks == MarksAfter(old(marks), events[..i])
        invariant isComplete == old(isComplete) && blockCalls == old(blockCalls)
        invariant handled == old(handled) + events[..i]
      {
        assert events[..i + 1][..i] == events[..i];
        ProcessEvent(events[i]);
        Advance(Later(lastProcessedEventIndex + 1, events[i].index));
      }
      assert events[..|events|] == events;
    }

    /** The unknown events among the given ones whose contracts are watched and that can be parsed, with their
        names and in the same order. */
    method ParseUnknown(events: seq<Event>) returns (parsed: seq<Event>)
      ensures parsed == ParsedEvents(events, watched, parse)
      ensures forall e :: e in parsed <==>
                exists u | u in events && u.contract in watched && u.name == None && parse(u, watched).Some? ::
                  e == u.(name := parse(u, watched))
      ensures Ascending(events) ==> Ascending(parsed)
    {
      parsed := [];
      for i := 0 to |events|
        invariant parsed == ParsedEvents(events[..i], watched, parse)
      {
        assert events[..i + 1][..i] == events[..i];
        if events[i].contract in watched && events[i].name == None {
          var name := parse(events[i], watched);
          if name.Some? {
            parsed := parsed + [events[i].(name := name)];
          }
        }
      }
      assert events[..|events|] == events;
      forall e {
        ParsedExact(events, watched, parse, e);
      }
      if Ascending(events) {
        ParsedAscends(events, watched, parse, if events == [] then 0 else events[|events| - 1].index + 1);
      }
    }

    method ProcessUnwatched(events: seq<Event>) returns (updatedDbEvents: seq<Event>)
      requires Counted()
      modifies this
      ensures updatedDbEvents == ParsedEvents(events, old(watched), parse) && handled == old(handled) + updatedDbEvents
      ensures Counted() && marks == MarksAfter(old(marks), updatedDbEvents)
          && |marks| == |old(marks)| + |updatedDbEvents|
      ensures isComplete == old(isComplete) && blockCalls == old(blockCalls)
    {
      updatedDbEvents := ParseUnknown(events);
      MarksAfterExact(marks, updatedDbEvents);
      ProcessParsed(updatedDbEvents);
    }

    /** The first `n` events have had the first pass, which began with the given contracts watched, events
        handled and number of marks. */
    ghost predicate FirstPass(n: nat, initiallyWatched: set<string>, before: seq<Event>, marked: seq<int>)
      requires n <= |saved|
      reads this
    {
      var first := OfContracts(saved[..n], initiallyWatched);
      && Counted() && marks == marked + Indices(first)
      && (forall i | n <= i < |saved| :: lastProcessedEventIndex < saved[i].index)
      && handled == before + first && watched == WatchedAfter(initiallyWatched, handlers, before, first)
    }

    method ProcessWatched(lo: nat, hi: nat, initiallyWatched: set<string>, ghost before: seq<Event>,
        ghost marked: seq<int>)
      requires Ascending(saved) && lo <= hi <= |saved|
      requires FirstPass(lo, initiallyWatched, before, marked)
      modifies this
      ensures FirstPass(hi, initiallyWatched, before, marked) && isComplete == old(isComplete)
          && blockCalls == old(blockCalls)
    {
      var watchedContractEvents := OfContracts(saved[lo..hi], initiallyWatched);
      PageAscends(saved, lo, hi, initiallyWatched, lastProcessedEventIndex);
      FirstPassGrows(saved, lo, hi, initiallyWatched, handlers, before, marked);
      ProcessKnown(watchedContractEvents);
    }

    /** One page of the first pass; collects the events that are left for later. */
    method ProcessPage(eventsInBatch: nat, page: nat, lo: nat, initiallyWatched: set<string>, ghost before: seq<Event>,
        ghost marked: seq<int>)
      returns (hi: nat, unwatched: seq<Event>)
      requires Ascending(saved) && lo == Min(Skip(page, eventsInBatch), |saved|)
      requires FirstPass(lo, initiallyWatched, before, marked)
      modifies this
      ensures hi == Min(Skip(page + 1, eventsInBatch), |saved|)
      ensures FirstPass(hi, initiallyWatched, before, marked) && isComplete == old(isComplete)
          && blockCalls == old(blockCalls)
      ensures OfOthers(saved[..hi], initiallyWatched) == OfOthers(saved[..lo], initiallyWatched) + unwatched
    {
      var events := GetEventsBatch(eventsInBatch, page);
      hi := lo + |events|;
      unwatched := OfOthers(events, initiallyWatched);
      OthersGrow(saved, lo, hi, initiallyWatched);
      ProcessWatched(lo, hi, initiallyWatched, before, marked);
    }

    /** The pages of the first pass. */
    method ProcessPages(initiallyWatched: set<string>, eventsInBatch: nat) returns (unwatchedContractEvents: seq<Event>)
      requires eventsInBatch > 0 && Ascending(saved) && AllFound()
      requires FirstPass(0, initiallyWatched, handled, marks)
      modifies this
      ensures FirstPass(|saved|, initiallyWatched, old(handled), old(marks)) && isComplete == old(isComplete)
          && blockCalls == old(blockCalls)
      ensures unwatchedContractEvents == OfOthers(saved, initiallyWatched)
    {
      unwatchedContractEvents := [];
      var page, numFetchedEvents := 0, 0;
      while numFetchedEvents < numEvents
        invariant numFetchedEvents == Min(Skip(page, eventsInBatch), |saved|)
        invariant FirstPass(numFetchedEvents, initiallyWatched, old(handled), old(marks))
        invariant isComplete == old(isComplete) && blockCalls == old(blockCalls)
        invariant unwatchedContractEvents == OfOthers(saved[..numFetchedEvents], initiallyWatched)
        decreases numEvents - numFetchedEvents
      {
        var unwatched;
        numFetchedEvents, unwatched :=
          ProcessPage(eventsInBatch, page, numFetchedEvents, initiallyWatched, old(handled), old(marks));
        unwatchedContractEvents := unwatchedContractEvents + unwatched;
        page := page + 1;
      }
      assert saved[..|saved|] == saved;
    }

    /** _processEventsInSubgraphOrder, with filterLogsByAddresses off. */
    method ProcessEventsInSubgraphOrder(eventsInBatch: nat) returns (updatedDbEvents: seq<Event>)
      requires eventsInBatch > 0 && Counted() && Ascending(saved) && AllFound()
      requires forall i | 0 <= i < |saved| :: lastProcessedEventIndex < saved[i].index
      modifies this
      ensures handled == old(handled) + SubgraphOrder(saved, old(watched), handlers, parse, old(handled))
      ensures Counted() && numProcessedEvents - old(numProcessedEvents) == |handled| - |old(handled)|
      ensures marks == MarksAfter(old(marks) + Indices(OfContracts(saved, old(watched))), updatedDbEvents)
      ensures handled == old(handled) + OfContracts(saved, old(watched)) + updatedDbEvents
      ensures isComplete == old(isComplete) && blockCalls == old(blockCalls)
    {
      var initiallyWatched := watched;
      assert saved[..|saved|] == saved && saved[..0] == [];
      var unwatched := ProcessPages(initiallyWatched, eventsInBatch);
      updatedDbEvents := ProcessUnwatched(unwatched);
    }

    /** The first `n` events have been processed in index order. */
    ghost predicate IndexPass(n: nat, initiallyWatched: set<string>, before: seq<Event>, marked: seq<int>)
      requires n <= |saved|
      reads this
    {
      var order := IndexOrder(saved[..n], initiallyWatched, handlers, parse, before);
      && Counted() && marks == marked + Indices(saved[..n])
      && (forall i | n <= i < |saved| :: lastProcessedEventIndex < saved[i].index)
      && handled == before + order && watched == WatchedAfter(initiallyWatched, handlers, before, order)
    }

    /** One round of the loop in _processEvents. */
    method ProcessNext(n: nat, ghost initiallyWatched: set<string>, ghost before: seq<Event>, ghost marked: seq<int>)
      requires Ascending(saved) && n < |saved|
      requires IndexPass(n, initiallyWatched, before, marked)
      modifies this
      ensures IndexPass(n + 1, initiallyWatched, before, marked) && isComplete == old(isComplete)
          && blockCalls == old(blockCalls)
    {
      var event := saved[n];
      NextInOrder(saved, n, initiallyWatched, handlers, parse, before);
      if event.contract in watched {
        if event.name == None {
          var name := parse(event, watched);
          if name.Some? {
            event := event.(name := name);
          }
        }
        ProcessEvent(event);
      }
      Advance(event.index);
    }

    method ProcessRange(lo: nat, hi: nat, ghost initiallyWatched: set<string>, ghost before: seq<Event>,
        ghost marked: seq<int>)
      requires Ascending(saved) && lo <= hi <= |saved|
      requires IndexPass(lo, initiallyWatched, before, marked)
      modifies this
      ensures IndexPass(hi, initiallyWatched, before, marked) && isComplete == old(isComplete)
          && blockCalls == old(blockCalls)
    {
      for i := lo to hi
        invariant IndexPass(i, initiallyWatched, before, marked) && isComplete == old(isComplete)
            && blockCalls == old(blockCalls)
      {
        ProcessNext(i, initiallyWatched, before, marked);
      }
    }

    method ProcessNextPage(eventsInBatch: nat, page: nat, lo: nat, ghost initiallyWatched: set<string>,
        ghost before: seq<Event>, ghost marked: seq<int>)
      returns (hi: nat)
      requires Ascending(saved) && lo == Min(Skip(page, eventsInBatch), |saved|)
      requires IndexPass(lo, initiallyWatched, before, marked)
      modifies this
      ensures hi == Min(Skip(page + 1, eventsInBatch), |saved|)
      ensures IndexPass(hi, initiallyWatched, before, marked) && isComplete == old(isComplete)
          && blockCalls == old(blockCalls)
    {
      var events := GetEventsBatch(eventsInBatch, page);
      hi := lo + |events|;
      ProcessRange(lo, hi, initiallyWatched, before, marked);
    }

    /** _processEvents. */
    method ProcessEvents(eventsInBatch: nat)
      requires eventsInBatch > 0 && Counted() && Ascending(saved) && AllFound()
      requires forall i | 0 <= i < |saved| :: lastProcessedEventIndex < saved[i].index
      modifies this
      ensures handled == old(handled) + IndexOrder(saved, old(watched), handlers, parse, old(handled))
      ensures Counted() && numProcessedEvents == old(numProcessedEvents) + |saved| && isComplete == old(isComplete)
          && blockCalls == old(blockCalls)
      ensures marks == old(marks) + Indices(saved)
    {
      var page, numFetchedEvents := 0, 0;
      while numFetchedEvents < numEvents
        invariant numFetchedEvents == Min(Skip(page, eventsInBatch), |saved|)
        invariant IndexPass(numFetchedEvents, old(watched), old(handled), old(marks))
        invariant isComplete == old(isComplete) && blockCalls == old(blockCalls)
        decreases numEvents - numFetchedEvents
      {
        numFetchedEvents := ProcessNextPage(eventsInBatch, page, numFetchedEvents, old(watched), old(handled),
            old(marks));
        page := page + 1;
      }
      assert saved[..|saved|] == saved;
    }

    /** processBatchEvents; the block is complete before its progress is saved, which then counts no more
        events. */
    method ProcessBatchEvents(eventsInBatch: nat, subgraphEventsOrder: bool)
      requires Counted() && Ascending(saved) && AllFound()
      requires forall i | 0 <= i < |saved| :: lastProcessedEventIndex < saved[i].index
      modifies this
      ensures isComplete && Counted()
      ensures blockCalls == old(blockCalls) + if handlesBlocks && !old(isComplete) then [|handled|] else []
      ensures subgraphEventsOrder ==>
                handled == old(handled) + SubgraphOrder(saved, old(watched), handlers, parse, old(handled))
      ensures !subgraphEventsOrder ==>
                handled == old(handled) + IndexOrder(saved, old(watched), handlers, parse, old(handled))
      ensures numProcessedEvents - old(numProcessedEvents)
              == if subgraphEventsOrder then |handled| - |old(handled)| else |saved|
    {
      var size := if eventsInBatch != 0 then eventsInBatch else DEFAULT_EVENTS_IN_BATCH;
      if subgraphEventsOrder {
        var _ := ProcessEventsInSubgraphOrder(size);
      } else {
        ProcessEvents(size);
      }
      if handlesBlocks {
        if !isComplete {
          blockCalls := blockCalls + [|handled|];
        }
      }
      isComplete := true;
      UpdateBlockProgress(lastProcessedEventIndex);
    }

    method UpdateBlockProgress(index: int)
      modifies this`lastProcessedEventIndex, this`numProcessedEvents
      ensures if isComplete
              then lastProcessedEventIndex == old(lastProcessedEventIndex)
                && numProcessedEvents == old(numProcessedEvents)
              else lastProcessedEventIndex == index && numProcessedEvents == old(numProcessedEvents) + 1
    {
      if !isComplete {
        lastProcessedEventIndex := index;
        numProcessedEvents := numProcessedEvents + 1;
      }
    }
  }

  lemma {:induction false} NumFetchedIs(rows: seq<Event>, eventsInBatch: nat, pages: nat)
    ensures NumFetched(rows, eventsInBatch, pages) == Min(Skip(pages, eventsInBatch), |rows|)
  {
    if pages > 0 {
      NumFetchedIs(rows, eventsInBatch, pages - 1);
    }
  }

  ghost predicate EndsAfter(rows: seq<Event>, numEvents: nat, eventsInBatch: nat, pages: nat) {
    NumFetched(rows, eventsInBatch, pages) >= numEvents
  }

  /** The page loops end if and only if the query has as many rows as the block counts events. */
  lemma PagesEndExact(rows: seq<Event>, numEvents: nat, eventsInBatch: nat)
    requires eventsInBatch > 0
    ensures (exists pages: nat :: EndsAfter(rows, numEvents, eventsInBatch, pages)) <==> numEvents <= |rows|
  {
    if numEvents <= |rows| {
      NumFetchedIs(rows, eventsInBatch, |rows|);
      assert |rows| * eventsInBatch >= |rows|;
      assert EndsAfter(rows, numEvents, eventsInBatch, |rows|);
    }
    forall pages: nat
      ensures NumFetched(rows, eventsInBatch, pages) <= |rows|
    {
      NumFetchedIs(rows, eventsInBatch, pages);
    }
  }

  /** With every event still stored, that is unless the block has events and has been pruned. */
  lemma PrunedBlockExact(stored: seq<Event>, isPruned: bool, eventsInBatch: nat)
    requires eventsInBatch > 0
    ensures (exists pages: nat :: EndsAfter(BlockEvents(stored, isPruned), |stored|, eventsInBatch, pages))
            <==> !isPruned || stored == []
  {
    PagesEndExact(BlockEvents(stored, isPruned), |stored|, eventsInBatch);
  }

  /** What the next event adds in index order. */
  lemma NextInOrder(saved: seq<Event>, n: nat, initially: set<string>, handlers: Handlers, parse: Parser,
      before: seq<Event>)
    requires n < |saved|
    ensures var order, next := IndexOrder(saved[..n], initially, handlers, parse, before),
        IndexOrder(saved[..n + 1], initially, handlers, parse, before);
      var now := WatchedAfter(initially, handlers, before, order);
      var e := if saved[n].name == None && parse(saved[n], now).Some?
          then saved[n].(name := parse(saved[n], now)) else saved[n];
      if saved[n].contract !in now then next == order
      else
        && before + next == before + order + [e]
        && WatchedAfter(initially, handlers, before, next) == now + handlers(before + order + [e])
  {
    LastInOrder(saved[..n + 1], initially, handlers, parse, before);
    assert saved[..n + 1][..n] == saved[..n];
    var order := IndexOrder(saved[..n], initially, handlers, parse, before);
    var now := WatchedAfter(initially, handlers, before, order);
    var e := if saved[n].name == None && parse(saved[n], now).Some?
        then saved[n].(name := parse(saved[n], now)) else saved[n];
    assert (order + [e])[..|order|] == order;
    assert before + (order + [e]) == before + order + [e];
  }

  /** The events taken from one page are ascending and lie between the marks before and after it. */
  lemma PageAscends(saved: seq<Event>, lo: nat, hi: nat, contracts: set<string>, last: int)
    requires Ascending(saved) && lo <= hi <= |saved|
    requires forall i | lo <= i < |saved| :: last < saved[i].index
    ensures var r := OfContracts(saved[lo..hi], contracts);
      && Ascending(r) && (forall i | 0 <= i < |r| :: last < r[i].index)
      && forall i, k | 0 <= i < |r| && hi <= k < |saved| :: r[i].index < saved[k].index
  {
    var r := OfContracts(saved[lo..hi], contracts);
    OfContractsAscends(saved[lo..hi], contracts, if hi < |saved| then saved[hi].index
        else if lo < hi then saved[hi - 1].index + 1 else 0);
    forall i | 0 <= i < |r|
      ensures last < r[i].index
    {
      OfContractsExact(saved[lo..hi], contracts, r[i]);
    }
  }

  lemma OthersGrow(saved: seq<Event>, lo: nat, hi: nat, contracts: set<string>)
    requires lo <= hi <= |saved|
    ensures OfOthers(saved[..hi], contracts) == OfOthers(saved[..lo], contracts) + OfOthers(saved[lo..hi], contracts)
    ensures OfContracts(saved[..hi], contracts) == OfContracts(saved[..lo], contracts)
        + OfContracts(saved[lo..hi], contracts)
  {
    OfContractsAppend(saved[..lo], saved[lo..hi], contracts);
    assert saved[..hi] == saved[..lo] + saved[lo..hi];
  }

  lemma FirstPassGrows(saved: seq<Event>, lo: nat, hi: nat, contracts: set<string>, handlers: Handlers,
      before: seq<Event>, marked: seq<int>)
    requires lo <= hi <= |saved|
    ensures var done, page := OfContracts(saved[..lo], contracts), OfContracts(saved[lo..hi], contracts);
      && OfContracts(saved[..hi], contracts) == done + page
      && before + done + page == before + OfContracts(saved[..hi], contracts)
      && marked + Indices(done) + Indices(page) == marked + Indices(OfContracts(saved[..hi], contracts))
      && WatchedAfter(contracts, handlers, before, done + page)
         == WatchedAfter(WatchedAfter(contracts, handlers, before, done), handlers, before + done, page)
  {
    OthersGrow(saved, lo, hi, contracts);
    WatchedAppend(contracts, handlers, before, OfContracts(saved[..lo], contracts),
        OfContracts(saved[lo..hi], contracts));
  }
}
