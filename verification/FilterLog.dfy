/** Patching input handlers and taking the patches back:
    first_layer/source/plugins/touchscreen/plugin.c, lines 141-193. */
module FilterLog {

  /** A handler's filter pointer: none, somebody else's, or touchscreen_filter. */
  datatype Filter = NoFilter | Foreign(id: nat) | TouchscreenFilter

  // ------------------------------------------------------------------ by value

  /** One saved filter. H stands for the handlers' addresses. */
  datatype Entry<H> = Entry(handler: H, saved: Filter)

  /** Handlers patched one after the other; the newest entry is the head of the log. */
  function PatchAll<H(==)>(filters: map<H, Filter>, log: seq<Entry<H>>, targets: seq<H>): (r: (map<H, Filter>, seq<Entry<H>>))
    requires forall h | h in targets :: h in filters
    ensures r.0.Keys == filters.Keys
    decreases |targets|
  {
    if targets == [] then (filters, log)
    else
      var h := targets[0];
      PatchAll(filters[h := TouchscreenFilter], [Entry(h, filters[h])] + log, targets[1..])
  }

  /** The log taken back, from its head. */
  function Undo<H(==)>(filters: map<H, Filter>, log: seq<Entry<H>>): map<H, Filter>
    decreases |log|
  {
    if log == [] then filters
    else Undo(filters[log[0].handler := log[0].saved], log[1..])
  }

  /** A patch leaves what the log restores unchanged, so any number of them do, in any order and
      however often they meet the same handler. */
  lemma {:induction false} PatchKeepsUndo<H>(filters: map<H, Filter>, log: seq<Entry<H>>, targets: seq<H>)
    requires forall h | h in targets :: h in filters
    ensures var (filters', log') := PatchAll(filters, log, targets);
            Undo(filters', log') == Undo(filters, log)
    decreases |targets|
  {
    if targets != [] {
      var h := targets[0];
      var patched, longer := filters[h := TouchscreenFilter], [Entry(h, filters[h])] + log;
      PatchKeepsUndo(patched, longer, targets[1..]);
      assert longer[1..] == log;
      assert patched[h := filters[h]] == filters;
    }
  }

  /** A patch gives exactly the targets the module's filter, and puts one entry for each in front of the
      log, the last target's first. */
  lemma {:induction false} PatchMarksTargets<H>(filters: map<H, Filter>, log: seq<Entry<H>>, targets: seq<H>)
    requires forall h | h in targets :: h in filters
    ensures var (filters', log') := PatchAll(filters, log, targets);
            && (forall h | h in filters :: filters'[h] == if h in targets then TouchscreenFilter else filters[h])
            && |log'| == |targets| + |log| && log'[|targets|..] == log
            && (forall i | 0 <= i < |targets| :: log'[i].handler == targets[|targets| - 1 - i])
    decreases |targets|
  {
    if targets != [] {
      var h, rest := targets[0], targets[1..];
      PatchMarksTargets(filters[h := TouchscreenFilter], [Entry(h, filters[h])] + log, rest);
      assert targets == [h] + rest;
      var log' := PatchAll(filters, log, targets).1;
      assert log'[|targets|..] == log'[|rest|..][1..] == log;
      assert log'[|rest|] == log'[|rest|..][0];
    }
  }

  /** Several calls of modify_touchscreen_device: each patches a list of handlers. */
  function PatchRounds<H(==)>(filters: map<H, Filter>, log: seq<Entry<H>>, rounds: seq<seq<H>>): (r: (map<H, Filter>, seq<Entry<H>>))
    requires forall i, h | 0 <= i < |rounds| && h in rounds[i] :: h in filters
    ensures r.0.Keys == filters.Keys
    decreases |rounds|
  {
    if rounds == [] then (filters, log)
    else
      assert forall h | h in rounds[0] :: h in filters;
      var (filters', log') := PatchAll(filters, log, rounds[0]);
      PatchRounds(filters', log', rounds[1..])
  }

  /** The round trip: however often and over whatever handlers the devices were patched, one reset
      gives every handler the filter it had before the first patch. */
  lemma {:induction false} ResetRestores<H>(filters: map<H, Filter>, log: seq<Entry<H>>, rounds: seq<seq<H>>)
    requires forall i, h | 0 <= i < |rounds| && h in rounds[i] :: h in filters
    ensures var (filters', log') := PatchRounds(filters, log, rounds);
            Undo(filters', log') == Undo(filters, log)
    ensures log == [] ==>
              var (filters', log') := PatchRounds(filters, log, rounds);
              Undo(filters', log') == filters
    decreases |rounds|
  {
    if rounds != [] {
      PatchKeepsUndo(filters, log, rounds[0]);
      var (filters', log') := PatchAll(filters, log, rounds[0]);
      ResetRestores(filters', log', rounds[1..]);
    }
  }

  /** What a reset gives a handler is its oldest entry, and it leaves handlers outside the log alone. */
  lemma {:induction false} OldestEntryWins<H>(filters: map<H, Filter>, log: seq<Entry<H>>, h: H)
    requires h in filters
    ensures h in Undo(filters, log)
    ensures (forall i | 0 <= i < |log| :: log[i].handler != h) ==> Undo(filters, log)[h] == filters[h]
    ensures forall i | 0 <= i < |log| && log[i].handler == h && (forall k | i < k < |log| :: log[k].handler != h) ::
              Undo(filters, log)[h] == log[i].saved
    decreases |log|
  {
    if log != [] {
      var filters', rest := filters[log[0].handler := log[0].saved], log[1..];
      OldestEntryWins(filters', rest, h);
      forall i | 0 <= i < |log| && log[i].handler == h && (forall k | i < k < |log| :: log[k].handler != h)
        ensures Undo(filters, log)[h] == log[i].saved
      {
        if i == 0 {
          assert forall k | 0 <= k < |rest| :: rest[k] == log[k + 1];
        } else {
          assert rest[i - 1] == log[i];
          assert forall k | 0 <= k < |rest| :: rest[k] == log[k + 1];
        }
      }
    }
  }

  /** The order matters: two handles that share a handler leave the module's own filter behind when
      the log is taken back oldest entry first. */
  lemma OldestFirstFails()
    ensures var (filters', log') := PatchAll(map[0 := NoFilter], [], [0, 0]);
            && Undo(filters', log') == map[0 := NoFilter]
            && Undo(filters', [log'[1], log'[0]]) == map[0 := TouchscreenFilter]
  {
    var once := map[0 := NoFilter][0 := TouchscreenFilter];
    var twice := once[0 := TouchscreenFilter];
    var older, newer := Entry(0, NoFilter), Entry(0, TouchscreenFilter);
    assert [0, 0][1..] == [0] && [0][1..] == [];
    assert PatchAll(map[0 := NoFilter], [], [0, 0]) == PatchAll(once, [older], [0]) by {
      assert [older] + [] == [older];
    }
    assert PatchAll(once, [older], [0]) == PatchAll(twice, [newer, older], []) by {
      assert [newer] + [older] == [newer, older];
    }
    Undo2(twice, newer, older);
    Undo2(twice, older, newer);
  }

  lemma Undo2(filters: map<int, Filter>, first: Entry<int>, second: Entry<int>)
    ensures Undo(filters, [first, second]) == filters[first.handler := first.saved][second.handler := second.saved]
  {
    var filters' := filters[first.handler := first.saved];
    assert [first, second][1..] == [second] && [second][1..] == [];
    assert Undo(filters', [second]) == Undo(filters'[second.handler := second.saved], []);
  }

  // ------------------------------------------------------------------ in place

  class InputHandler {
    var filter: Filter
  }

  class InputHandle {
    const handler: InputHandler
    var open: int

    constructor (handler: InputHandler, open: int)
      ensures this.handler == handler && this.open == open
    {
      this.handler, this.open := handler, open;
    }
  }

  class InputDev {
    var name: string
    var grab: InputHandle?
    var handles: seq<InputHandle>
  }

  /** The handlers modify_touchscreen_device patches, in order: that of the grabbing handle alone if
      there is one, otherwise those of all open handles. */
  ghost function Targets(dev: InputDev?): seq<InputHandler>
    reads dev, if dev == null then {} else set h: InputHandle | h in dev.handles
  {
    if dev == null then []
    else if dev.grab != null then [dev.grab.handler]
    else OpenHandlers(dev.handles)
  }

  ghost function OpenHandlers(handles: seq<InputHandle>): seq<InputHandler>
    reads set h: InputHandle | h in handles
  {
    if handles == [] then []
    else
      var n := |handles| - 1;
      OpenHandlers(handles[..n]) + if handles[n].open != 0 then [handles[n].handler] else []
  }

  /** The places of the open handles among the first n. */
  ghost function OpenPlaces(handles: seq<InputHandle>, n: nat): set<nat>
    requires n <= |handles|
    reads set h: InputHandle | h in handles
  {
    set k: nat | k < n && handles[k].open != 0
  }

  /** Some open handle points at the handler. */
  ghost predicate OpenFor(handles: seq<InputHandle>, h: InputHandler)
    reads set h: InputHandle | h in handles
  {
    exists k :: 0 <= k < |handles| && handles[k].open != 0 && handles[k].handler == h
  }

  /** The device's events go to the handler: to the grabbing handle's if there is one, otherwise to those
      of the open handles. */
  ghost predicate Feeds(dev: InputDev, h: InputHandler)
    reads dev, set h: InputHandle | h in dev.handles
  {
    if dev.grab != null then h == dev.grab.handler else OpenFor(dev.handles, h)
  }

  lemma {:induction false} OpenHandlersAreOpen(handles: seq<InputHandle>, h: InputHandler)
    ensures h in OpenHandlers(handles) <==> OpenFor(handles, h)
  {
    if handles != [] {
      var n := |handles| - 1;
      OpenHandlersAreOpen(handles[..n], h);
      assert forall k | 0 <= k < n :: handles[..n][k] == handles[k];
    }
  }

  lemma OpenPlacesOfFront(handles: seq<InputHandle>, k: nat)
    requires k < |handles|
    ensures OpenPlaces(handles[..|handles| - 1], k) == OpenPlaces(handles, k)
    ensures OpenPlaces(handles, k + 1) == OpenPlaces(handles, k) + if handles[k].open != 0 then {k} else {}
    ensures |OpenPlaces(handles, k + 1)| == |OpenPlaces(handles, k)| + if handles[k].open != 0 then 1 else 0
  {
    assert forall j | 0 <= j < k :: handles[..|handles| - 1][j] == handles[j];
  }

  /** OpenHandlers lists the open handles in order. */
  lemma {:induction false} OpenHandlersInOrder(handles: seq<InputHandle>)
    ensures |OpenHandlers(handles)| == |OpenPlaces(handles, |handles|)|
    ensures forall k | k in OpenPlaces(handles, |handles|) ::
              && |OpenPlaces(handles, k)| < |OpenHandlers(handles)|
              && OpenHandlers(handles)[|OpenPlaces(handles, k)|] == handles[k].handler
  {
    if handles == [] {
      assert OpenPlaces(handles, 0) == {};
    } else {
      var n := |handles| - 1;
      var front := handles[..n];
      OpenHandlersInOrder(front);
      OpenPlacesOfFront(handles, n);
      forall k | k in OpenPlaces(handles, |handles|)
        ensures |OpenPlaces(handles, k)| < |OpenHandlers(handles)|
        ensures OpenHandlers(handles)[|OpenPlaces(handles, k)|] == handles[k].handler
      {
        if k < n {
          OpenPlacesOfFront(handles, k);
          assert k in OpenPlaces(front, n) && front[k] == handles[k];
        }
      }
    }
  }

  /** The filters of a set of handlers, as a value. */
  ghost function Filters(handlers: set<InputHandler>): map<InputHandler, Filter>
    reads handlers
  {
    map h | h in handlers :: h.filter
  }

  /** The log has one more entry for every open handle, the last handle's first. */
  ghost predicate OpenOnTop(handles: seq<InputHandle>, log: seq<Entry<InputHandler>>, before: seq<Entry<InputHandler>>)
    reads set h: InputHandle | h in handles
  {
    var n := |OpenPlaces(handles, |handles|)|;
    && |log| == n + |before| && log[n..] == before
    && forall k | k in OpenPlaces(handles, |handles|) ::
         var place := n - 1 - |OpenPlaces(handles, k)|;
         0 <= place < n && log[place].handler == handles[k].handler
  }

  lemma PatchMarksOpen(filters: map<InputHandler, Filter>, log: seq<Entry<InputHandler>>, handles: seq<InputHandle>)
    requires forall h | h in OpenHandlers(handles) :: h in filters
    ensures var (filters', log') := PatchAll(filters, log, OpenHandlers(handles));
            && OpenOnTop(handles, log', log)
            && forall h | h in filters :: filters'[h] == if OpenFor(handles, h) then TouchscreenFilter else filters[h]
  {
    OpenHandlersInOrder(handles);
    PatchMarksTargets(filters, log, OpenHandlers(handles));
    forall h: InputHandler | h in filters
      ensures h in OpenHandlers(handles) <==> OpenFor(handles, h)
    {
      OpenHandlersAreOpen(handles, h);
    }
  }

  datatype Node = Node(handle: InputHandle, filter: Filter)

  ghost function Entries(nodes: seq<Node>): seq<Entry<InputHandler>> {
    seq(|nodes|, i requires 0 <= i < |nodes| => Entry(nodes[i].handle.handler, nodes[i].filter))
  }

  lemma {:induction false} PatchOneMore<H>(filters: map<H, Filter>, log: seq<Entry<H>>, targets: seq<H>, h: H)
    requires h in filters && forall t | t in targets :: t in filters
    ensures var (filters', log') := PatchAll(filters, log, targets);
            PatchAll(filters, log, targets + [h]) == (filters'[h := TouchscreenFilter], [Entry(h, filters'[h])] + log')
    decreases |targets|
  {
    if targets == [] {
      assert targets + [h] == [h] && [h][1..] == [];
    } else {
      var t := targets[0];
      assert (targets + [h])[1..] == targets[1..] + [h];
      PatchOneMore(filters[t := TouchscreenFilter], [Entry(t, filters[t])] + log, targets[1..], h);
    }
  }

  class TouchscreenLog {
    var list: seq<Node>

    constructor ()
      ensures list == []
    {
      list := [];
    }

    ghost function Log(): seq<Entry<InputHandler>>
      reads this
    {
      Entries(list)
    }

    /** INIT_LIST_HEAD: whatever the list held is forgotten. */
    method InitListHead()
      modifies this
      ensures Log() == []
    {
      list := [];
    }

    method InputHandleListAdd(handle: InputHandle, filter: Filter)
      modifies this
      ensures Log() == [Entry(handle.handler, filter)] + old(Log())
    {
      list := [Node(handle, filter)] + list;
    }

    /** Save the handler's filter at the head of the list, then overwrite it. */
    method Patch(handle: InputHandle, ghost handlers: set<InputHandler>)
      requires handle.handler in handlers
      modifies this, handlers
      ensures Log() == [Entry(handle.handler, old(handle.handler.filter))] + old(Log())
      ensures Filters(handlers) == old(Filters(handlers))[handle.handler := TouchscreenFilter]
      ensures forall h | h in handlers ::
                h.filter == if h == handle.handler then TouchscreenFilter else old(h.filter)
    {
      InputHandleListAdd(handle, handle.handler.filter);
      handle.handler.filter := TouchscreenFilter;
    }

    /** Filters and log are as given, but for the patches of the handlers in done. */
    ghost predicate PatchedSoFar(handlers: set<InputHandler>, filters: map<InputHandler, Filter>,
                                 log: seq<Entry<InputHandler>>, done: seq<InputHandler>)
      reads this, handlers
    {
      && filters.Keys == handlers && (forall h | h in done :: h in handlers)
      && (Filters(handlers), Log()) == PatchAll(filters, log, done)
    }

    method PatchNext(handle: InputHandle, ghost handlers: set<InputHandler>, ghost filters: map<InputHandler, Filter>,
                     ghost log: seq<Entry<InputHandler>>, ghost done: seq<InputHandler>)
      returns (ghost done': seq<InputHandler>)
      requires handle.handler in handlers && PatchedSoFar(handlers, filters, log, done)
      modifies this, handlers
      ensures done' == done + [handle.handler] && PatchedSoFar(handlers, filters, log, done')
    {
      PatchOneMore(filters, log, done, handle.handler);
      Patch(handle, handlers);
      done' := done + [handle.handler];
    }

    /** handlers are all input handlers of the system: those outside the targets keep their filter. */
    method ModifyTouchscreenDevice(dev: InputDev?, ghost handlers: set<InputHandler>) returns (r: int)
      requires forall h | h in Targets(dev) :: h in handlers
      modifies this, handlers
      ensures r == if dev == null then 1 else 0
      ensures (Filters(handlers), Log()) == old(PatchAll(Filters(handlers), Log(), Targets(dev)))
      ensures dev == null ==> Log() == old(Log()) && forall h | h in handlers :: h.filter == old(h.filter)
      ensures dev != null && dev.grab != null ==>
                && Log() == [Entry(dev.grab.handler, old(dev.grab.handler.filter))] + old(Log())
                && forall h | h in handlers ::
                     h.filter == if h == dev.grab.handler then TouchscreenFilter else old(h.filter)
      ensures dev != null && dev.grab == null ==>
                && OpenOnTop(dev.handles, Log(), old(Log()))
                && forall h | h in handlers ::
                     h.filter == if OpenFor(dev.handles, h) then TouchscreenFilter else old(h.filter)
    {
      if dev == null {
        return 1;
      }
      ghost var filters, log := Filters(handlers), Log();
      if dev.grab != null {
        PatchOneMore(filters, log, [], dev.grab.handler);
        assert [] + [dev.grab.handler] == Targets(dev);
        assert dev.grab.handler in Targets(dev);
        Patch(dev.grab, handlers);
      } else {
        PatchMarksOpen(filters, log, dev.handles);
        PatchOpenHandles(dev.handles, handlers);
        assert forall h | h in handlers :: Filters(handlers)[h] == h.filter;
      }
      return 0;
    }

    method PatchOpenHandles(handles: seq<InputHandle>, ghost handlers: set<InputHandler>)
      requires forall h | h in OpenHandlers(handles) :: h in handlers
      modifies this, handlers
      ensures (Filters(handlers), Log()) == old(PatchAll(Filters(handlers), Log(), OpenHandlers(handles)))
    {
      ghost var filters, log := Filters(handlers), Log();
      ghost var done := OpenPrefixes(handles);
      var i := 0;
      while i < |handles|
        invariant 0 <= i <= |handles|
        invariant forall k | 0 <= k < |handles| :: handles[k].open == old(handles[k].open)
        invariant PatchedSoFar(handlers, filters, log, done[i])
      {
        assert done[i] + [] == done[i];
        if handles[i].open != 0 {
          ghost var _ := PatchNext(handles[i], handlers, filters, log, done[i]);
        }
        i := i + 1;
      }
    }

    method ResetTouchscreenDevice(ghost handlers: set<InputHandler>) returns (r: int)
      requires forall e | e in Log() :: e.handler in handlers
      modifies this, handlers
      ensures r == 0 && Log() == []
      ensures Filters(handlers) == old(Undo(Filters(handlers), Log()))
    {
      ghost var restored := Undo(Filters(handlers), Log());
      while list != []
        invariant forall e | e in Log() :: e.handler in handlers
        invariant Undo(Filters(handlers), Log()) == restored
        decreases |list|
      {
        var entry := list[0];
        ghost var filters, log := Filters(handlers), Log();
        assert log[0] == Entry(entry.handle.handler, entry.filter) && log[0] in log;
        entry.handle.handler.filter := entry.filter;
        list := list[1..];
        assert Filters(handlers) == filters[log[0].handler := log[0].saved];
        assert Log() == log[1..];
      }
      return 0;
    }
  }

  /** The handlers of the open ones among the first k handles, for every k. */
  lemma {:induction false} OpenPrefixes(handles: seq<InputHandle>) returns (prefixes: seq<seq<InputHandler>>)
    ensures |prefixes| == |handles| + 1 && prefixes[0] == [] && prefixes[|handles|] == OpenHandlers(handles)
    ensures forall k | 0 <= k < |handles| ::
              && prefixes[k + 1] == prefixes[k] + (if handles[k].open != 0 then [handles[k].handler] else [])
              && (handles[k].open != 0 ==> handles[k].handler in OpenHandlers(handles))
  {
    if handles == [] {
      prefixes := [[]];
    } else {
      var n := |handles| - 1;
      prefixes := OpenPrefixes(handles[..n]);
      assert forall k | 0 <= k < n :: handles[..n][k] == handles[k];
      prefixes := prefixes + [OpenHandlers(handles)];
    }
  }

  /** One patch: what a reset would restore stays the same. */
  method PatchOneDevice(log: TouchscreenLog, dev: InputDev, ghost handlers: set<InputHandler>)
    requires forall e | e in log.Log() :: e.handler in handlers
    requires forall h | h in Targets(dev) :: h in handlers
    modifies log, handlers
    ensures forall e | e in log.Log() :: e.handler in handlers
    ensures Undo(Filters(handlers), log.Log()) == old(Undo(Filters(handlers), log.Log()))
  {
    PatchKeepsUndo(Filters(handlers), log.Log(), Targets(dev));
    PatchedHandlers(Filters(handlers), log.Log(), Targets(dev));
    var _ := log.ModifyTouchscreenDevice(dev, handlers);
  }

  /** The two methods together, on real handlers: patch any number of devices, reset once. */
  method PatchManyThenReset(log: TouchscreenLog, devs: seq<InputDev>, ghost handlers: set<InputHandler>)
    requires log.Log() == []
    requires forall i, h | 0 <= i < |devs| && h in Targets(devs[i]) :: h in handlers
    modifies log, handlers
    ensures log.Log() == [] && Filters(handlers) == old(Filters(handlers))
  {
    var i := 0;
    while i < |devs|
      invariant 0 <= i <= |devs|
      invariant forall e | e in log.Log() :: e.handler in handlers
      invariant forall k, h | 0 <= k < |devs| && h in Targets(devs[k]) :: h in handlers
      invariant Undo(Filters(handlers), log.Log()) == old(Filters(handlers))
    {
      PatchOneDevice(log, devs[i], handlers);
      i := i + 1;
    }
    var _ := log.ResetTouchscreenDevice(handlers);
  }

  lemma {:induction false} PatchedHandlers<H>(filters: map<H, Filter>, log: seq<Entry<H>>, targets: seq<H>)
    requires forall h | h in targets :: h in filters
    requires forall e | e in log :: e.handler in filters
    ensures forall e | e in PatchAll(filters, log, targets).1 :: e.handler in filters
    decreases |targets|
  {
    if targets != [] {
      var h := targets[0];
      PatchedHandlers(filters[h := TouchscreenFilter], [Entry(h, filters[h])] + log, targets[1..]);
    }
  }
}
