/** Linearizable reads: the table of waiting requests, the barrier, and what a read returns.

    The library confirms a read request by its context with an index; the request passes once the
    reported applied index has reached it.  A request may also give up.  Giving up and confirming both find
    the channel by the context alone, and a request whose channel was closed without an index receives 0.
 */
module ReadBarrier {
  import opened Options
  import opened Storage
  import opened Replay
  import opened RaftLog
  import opened WalLayout
  import opened Recovery
  import opened RaftNode

  /** A waiter's channel: it holds at most one confirmed index. */
  datatype Channel = Channel(value: Option<nat>, closed: bool)

  datatype ReadState = ReadState(context: string, index: nat)

  /** A read request and the number of entries committed when it was made. */
  datatype Request = Request(context: string, floor: nat)

  datatype Table = Table(waiters: map<string, nat>, channels: map<nat, Channel>)

  /** One confirmation: the waiter registered under the context gets the index; others are not disturbed. */
  function Confirm(table: Table, state: ReadState): Table {
    if state.context in table.waiters then
      Table(table.waiters - {state.context},
            table.channels[table.waiters[state.context] := Channel(Some(state.index), true)])
    else table
  }

  function ConfirmAll(table: Table, states: seq<ReadState>): Table {
    if states == [] then table else Confirm(ConfirmAll(table, states[..|states| - 1]), states[|states| - 1])
  }

  /** Giving up under a context: the channel registered there last is closed and forgotten. */
  function Forget(table: Table, context: string): Table {
    if context in table.waiters then
      Table(table.waiters - {context}, table.channels[table.waiters[context] := Channel(None, true)])
    else table
  }

  /** What a request receives from its channel: nothing yet, the index, or 0 once it is closed without one. */
  function Receivable(channel: Channel): Option<nat> {
    if channel.value.Some? then channel.value else if channel.closed then Some(0) else None
  }

  /** Every index a channel holds covers what was committed when its request was made. */
  ghost predicate Covered(table: Table, requests: map<nat, Request>) {
    && table.channels.Keys == requests.Keys
    && forall t :: t in table.channels && table.channels[t].value.Some? ==>
         requests[t].floor <= table.channels[t].value.value
  }

  /** A context in the table leads to the request still outstanding under it. */
  ghost predicate Matched(table: Table, requests: map<nat, Request>, outstanding: set<nat>) {
    && (forall c :: c in table.waiters ==>
          table.waiters[c] in requests && requests[table.waiters[c]].context == c)
    && outstanding <= requests.Keys
    && forall t :: t in outstanding && requests[t].context in table.waiters ==>
         table.waiters[requests[t].context] == t
  }

  /** A context in the table leads to an open channel of a request that has not returned; no two such
      requests share a context; and only requests that gave up have a channel closed without an index. */
  ghost predicate Owned(table: Table, requests: map<nat, Request>, waiting: set<nat>, gaveUp: set<nat>) {
    && table.channels.Keys == requests.Keys
    && waiting <= requests.Keys && waiting !! gaveUp
    && (forall c :: c in table.waiters ==>
          && table.waiters[c] in waiting && requests[table.waiters[c]].context == c
          && table.channels[table.waiters[c]] == Channel(None, false))
    && (forall t, u :: t in waiting && u in waiting && t != u ==> requests[t].context != requests[u].context)
    && forall t :: t in table.channels && table.channels[t] == Channel(None, true) ==> t in gaveUp
  }

  /** The library answers outstanding requests, each once, with an index no lower than their floor. */
  ghost predicate Answers(states: seq<ReadState>, origins: seq<nat>, requests: map<nat, Request>,
                          outstanding: set<nat>) {
    && |states| == |origins|
    && (forall k :: 0 <= k < |origins| ==> origins[k] in outstanding && origins[k] in requests)
    && (forall j, k :: 0 <= j < k < |origins| ==> origins[j] != origins[k])
    && forall k :: 0 <= k < |origins| ==>
         states[k].context == requests[origins[k]].context && requests[origins[k]].floor <= states[k].index
  }

  function Answered(origins: seq<nat>): set<nat> {
    set k | 0 <= k < |origins| :: origins[k]
  }

  /** With distinct contexts outstanding, every confirmation reaches the request it was made for. */
  lemma {:induction false} ConfirmedForTheRightRequest(table: Table, requests: map<nat, Request>, outstanding: set<nat>,
                                                       states: seq<ReadState>, origins: seq<nat>)
    requires Covered(table, requests) && Matched(table, requests, outstanding)
    requires Answers(states, origins, requests, outstanding)
    ensures var after := ConfirmAll(table, states);
            Covered(after, requests) && Matched(after, requests, outstanding - Answered(origins))
    decreases |states|
  {
    if states != [] {
      var n := |states| - 1;
      ConfirmedForTheRightRequest(table, requests, outstanding, states[..n], origins[..n]);
      assert Answered(origins) == Answered(origins[..n]) + {origins[n]} by {
        assert origins == origins[..n] + [origins[n]];
      }
      var before := ConfirmAll(table, states[..n]);
      assert origins[n] in outstanding - Answered(origins[..n]);
      ConfirmOne(before, requests, outstanding - Answered(origins[..n]), states[n], origins[n]);
      assert outstanding - Answered(origins[..n]) - {origins[n]} == outstanding - Answered(origins);
    } else {
      assert outstanding - Answered(origins) == outstanding;
    }
  }

  /** What a series of confirmations does for one waiter: `k` is the first of them under its context, or -1.
      The waiter gets that index and its entry goes; with none nothing changes for it. */
  lemma {:induction false} ConfirmAllExactly(table: Table, states: seq<ReadState>, c: string, k: int)
    requires c in table.waiters && table.waiters[c] in table.channels
    requires forall d :: d in table.waiters && d != c ==> table.waiters[d] != table.waiters[c]
    requires -1 <= k < |states|
    requires forall j :: 0 <= j < |states| && (k < 0 || j <= k) ==> (states[j].context == c <==> j == k)
    ensures var after, t := ConfirmAll(table, states), table.waiters[c];
            && t in after.channels
            && (c in after.waiters <==> k < 0)
            && after.channels[t] == if k < 0 then table.channels[t] else Channel(Some(states[k].index), true)
    decreases |states|
  {
    hide ConfirmAll;
    if states == [] {
      NothingConfirmed(table);
    } else {
      var n := |states| - 1;
      ConfirmedNext(table, states);
      EntriesOnlyLeave(table, states[..n]);
      ConfirmAllExactly(table, states[..n], c, if k == n then -1 else k);
    }
  }

  lemma NothingConfirmed(table: Table)
    ensures ConfirmAll(table, []) == table
  {
  }

  lemma ConfirmedNext(table: Table, states: seq<ReadState>)
    requires states != []
    ensures ConfirmAll(table, states) == Confirm(ConfirmAll(table, states[..|states| - 1]), states[|states| - 1])
  {
  }

  lemma {:induction false} EntriesOnlyLeave(table: Table, states: seq<ReadState>)
    ensures var after := ConfirmAll(table, states);
            forall d :: d in after.waiters ==> d in table.waiters && after.waiters[d] == table.waiters[d]
    decreases |states|
  {
    if states != [] {
      EntriesOnlyLeave(table, states[..|states| - 1]);
    }
  }

  lemma ConfirmOne(table: Table, requests: map<nat, Request>, outstanding: set<nat>, state: ReadState, origin: nat)
    requires Covered(table, requests) && Matched(table, requests, outstanding)
    requires origin in outstanding && state.context == requests[origin].context && requests[origin].floor <= state.index
    ensures Covered(Confirm(table, state), requests)
    ensures Matched(Confirm(table, state), requests, outstanding - {origin})
  {
  }

  lemma RegisteredIsWell(table: Table, requests: map<nat, Request>, outstanding: set<nat>, waiting: set<nat>,
                         gaveUp: set<nat>, request: Request, ticket: nat)
    requires Covered(table, requests) && Matched(table, requests, outstanding)
             && Owned(table, requests, waiting, gaveUp)
    requires ticket !in table.channels && ticket !in requests && ticket !in gaveUp
    requires forall t :: t in outstanding + waiting ==> t in requests && requests[t].context != request.context
    ensures var after := Table(table.waiters[request.context := ticket],
                               table.channels[ticket := Channel(None, false)]);
            var more := requests[ticket := request];
            && Covered(after, more) && Matched(after, more, outstanding + {ticket})
            && Owned(after, more, waiting + {ticket}, gaveUp)
  {
  }

  lemma {:induction false} ConfirmKeepsOwned(table: Table, requests: map<nat, Request>, waiting: set<nat>,
                                             gaveUp: set<nat>, states: seq<ReadState>)
    requires Owned(table, requests, waiting, gaveUp)
    ensures Owned(ConfirmAll(table, states), requests, waiting, gaveUp)
    decreases |states|
  {
    if states != [] {
      ConfirmKeepsOwned(table, requests, waiting, gaveUp, states[..|states| - 1]);
    }
  }

  /** With distinct contexts among requests that have not returned, giving up touches no other channel. */
  lemma GivingUpIsOwn(table: Table, requests: map<nat, Request>, waiting: set<nat>, gaveUp: set<nat>, ticket: nat)
    requires Owned(table, requests, waiting, gaveUp) && ticket in waiting
    ensures var after := Forget(table, requests[ticket].context);
            && Owned(after, requests, waiting - {ticket}, gaveUp + {ticket})
            && after.channels.Keys == table.channels.Keys
            && forall t :: t in table.channels && t != ticket ==> after.channels[t] == table.channels[t]
  {
  }

  lemma ForgottenIsWell(table: Table, requests: map<nat, Request>, outstanding: set<nat>, context: string)
    requires Covered(table, requests) && Matched(table, requests, outstanding)
    ensures Covered(Forget(table, context), requests) && Matched(Forget(table, context), requests, outstanding)
  {
  }

  /** The next index a request receives, if any, covers what was committed when it was made. */
  predicate ReadsWell(table: Table, requests: map<nat, Request>, t: nat)
    requires t in table.channels && t in requests
  {
    Receivable(table.channels[t]).Some? ==> requests[t].floor <= Receivable(table.channels[t]).value
  }

  /** A context used again for `newer` while `older` has not returned, or is still owed an answer.  Every
      answer the library may give to `older`, and `older` giving up, are harmless exactly when no more was
      committed at the newer request than at the older one, if the answer is owed, and nothing at all was
      committed at the newer request, if the older one may still give up. */
  lemma ReusedContextExactly(table: Table, requests: map<nat, Request>, older: nat, newer: nat, owed: bool, waits: bool)
    requires older in requests && newer in requests && older != newer && newer in table.channels
    requires requests[older].context == requests[newer].context
    requires requests[newer].context in table.waiters && table.waiters[requests[newer].context] == newer
    requires table.channels[newer] == Channel(None, false)
    ensures var context := requests[older].context;
            (owed ==> forall index :: index >= requests[older].floor ==>
                        ReadsWell(Confirm(table, ReadState(context, index)), requests, newer))
            && (waits ==> ReadsWell(Forget(table, context), requests, newer))
            <==>
            (owed ==> requests[newer].floor <= requests[older].floor) && (waits ==> requests[newer].floor == 0)
  {
    var context := requests[older].context;
    var early := Confirm(table, ReadState(context, requests[older].floor));
    assert early.channels[newer] == Channel(Some(requests[older].floor), true);
    assert ReadsWell(early, requests, newer) <==> requests[newer].floor <= requests[older].floor;
  }

  /** For instance: a request made at index 3 was given up, another reuses its context at index 7 and is
      confirmed with 3; and of two requests made at index 7 the older one times out, which lets the newer
      one pass with 0. */
  lemma ReusedContextIsStale()
    ensures var requests := map[1 := Request("k", 3), 2 := Request("k", 7)];
            var table := Table(map["k" := 2], map[1 := Channel(None, true), 2 := Channel(None, false)]);
            exists index :: index >= 3 && !ReadsWell(Confirm(table, ReadState("k", index)), requests, 2)
    ensures var requests := map[1 := Request("k", 7), 2 := Request("k", 7)];
            var table := Table(map["k" := 2], map[1 := Channel(None, false), 2 := Channel(None, false)]);
            !ReadsWell(Forget(table, "k"), requests, 2)
  {
    var requests := map[1 := Request("k", 3), 2 := Request("k", 7)];
    var table := Table(map["k" := 2], map[1 := Channel(None, true), 2 := Channel(None, false)]);
    ReusedContextExactly(table, requests, 1, 2, true, false);
    var requests' := map[1 := Request("k", 7), 2 := Request("k", 7)];
    var table' := Table(map["k" := 2], map[1 := Channel(None, false), 2 := Channel(None, false)]);
    ReusedContextExactly(table', requests', 1, 2, false, true);
  }

  /** The replica shows exactly the first `cursor` entries and reports that index. */
  ghost predicate Exact(applied: nat, st: State) {
    && st.mode == Running(applied) && applied <= |st.log|
    && Business(st.kv) == Expected(st.log[..applied])
  }

  ghost predicate Fresh(applied: nat, st: State) {
    applied <= |st.log| && FreshAt(st.kv, applied, st.log)
  }

  class ReadService {
    const node: RaftNode
    var waiters: map<string, nat>
    var channels: map<nat, Channel>
    var results: map<nat, nat>            // the index each returned request received
    ghost var requests: map<nat, Request>
    ghost var outstanding: set<nat>       // requests the library still owes an answer
    ghost var waiting: set<nat>           // requests that have not returned
    ghost var gaveUp: set<nat>

    constructor (node: RaftNode)
      ensures this.node == node && Serving()
      ensures waiters == map[] && channels == map[] && results == map[] && outstanding == waiting == {}
    {
      this.node := node;
      waiters, channels, results, requests := map[], map[], map[], map[];
      outstanding, waiting, gaveUp := {}, {}, {};
    }

    function Now(): Table
      reads this
    {
      Table(waiters, channels)
    }

    /** Every channel's index and every index received cover what was committed when the request was made. */
    ghost predicate Serving()
      reads this
    {
      && Covered(Now(), requests) && Matched(Now(), requests, outstanding) && Owned(Now(), requests, waiting, gaveUp)
      && forall t :: t in results ==> t in requests && requests[t].floor <= results[t]
    }

    /** A read request with its own channel.  All stays well when no request that has not returned, or is
        still owed an answer, has the context. */
    method Register(context: string, ticket: nat, ghost floor: nat)
      requires ticket !in channels && ticket !in requests && ticket !in gaveUp
      modifies this
      ensures requests == old(requests)[ticket := Request(context, floor)]
      ensures outstanding == old(outstanding) + {ticket} && waiting == old(waiting) + {ticket}
      ensures results == old(results) && gaveUp == old(gaveUp)
      ensures waiters == old(waiters)[context := ticket] && channels == old(channels)[ticket := Channel(None, false)]
      ensures old(Serving()) && (forall t :: t in old(outstanding + waiting) ==>
                                 t in old(requests) && old(requests)[t].context != context) ==>
                Serving()
    {
      hide Covered, Matched, Owned;
      if Serving() && forall t :: t in outstanding + waiting ==> t in requests && requests[t].context != context {
        RegisteredIsWell(Now(), requests, outstanding, waiting, gaveUp, Request(context, floor), ticket);
      }
      channels := channels[ticket := Channel(None, false)];
      waiters := waiters[context := ticket];
      requests := requests[ticket := Request(context, floor)];
      outstanding, waiting := outstanding + {ticket}, waiting + {ticket};
    }

    /** A request gives up: whatever channel is registered under its context is closed and forgotten.  The
        library may still answer later. */
    method RemoveWaiter(context: string, ghost ticket: nat)
      requires ticket in waiting && ticket in requests && requests[ticket].context == context
      modifies this`waiters, this`channels, this`waiting, this`gaveUp
      ensures Now() == Forget(old(Now()), context)
      ensures if context in old(waiters) then
                waiters == old(waiters) - {context}
                && channels == old(channels)[old(waiters)[context] := Channel(None, true)]
              else waiters == old(waiters) && channels == old(channels)
      ensures waiting == old(waiting) - {ticket} && gaveUp == old(gaveUp) + {ticket}
      ensures old(Serving()) ==>
                && Serving()
                && forall t :: t in channels && t != ticket ==> t in old(channels) && channels[t] == old(channels)[t]
    {
      hide Covered, Matched, Owned;
      ghost var table := Now();
      if Serving() {
        GivingUpIsOwn(table, requests, waiting, gaveUp, ticket);
        ForgottenIsWell(table, requests, outstanding, context);
      }
      if context in waiters {
        channels := channels[waiters[context] := Channel(None, true)];
        waiters := waiters - {context};
      }
      waiting, gaveUp := waiting - {ticket}, gaveUp + {ticket};
    }

    method HandleReadStates(states: seq<ReadState>, ghost origins: seq<nat>)
      modifies this`waiters, this`channels, this`outstanding
      ensures outstanding == old(outstanding) - Answered(origins)
      ensures Now() == ConfirmAll(old(Now()), states)
      ensures old(Serving()) && Answers(states, origins, requests, old(outstanding)) ==> Serving()
    {
      hide Covered, Matched, Owned, Answers;
      ghost var table := Now();
      if Serving() && Answers(states, origins, requests, outstanding) {
        ConfirmedForTheRightRequest(table, requests, outstanding, states, origins);
        ConfirmKeepsOwned(table, requests, waiting, gaveUp, states);
      }
      for i := 0 to |states|
        invariant Now() == ConfirmAll(table, states[..i])
        invariant outstanding == old(outstanding)
      {
        assert states[..i + 1][..i] == states[..i];
        var context := states[i].context;
        if context in waiters {
          channels := channels[waiters[context] := Channel(Some(states[i].index), true)];
          waiters := waiters - {context};
        }
      }
      assert states[..|states|] == states;
      outstanding := outstanding - Answered(origins);
    }

    /** A request that has not returned looks at its channel; with something to receive it returns, without
        asking whether the channel was closed. */
    method Receive(ticket: nat) returns (index: Option<nat>)
      requires ticket in channels && ticket in waiting
      modifies this`results, this`waiting
      ensures index == Receivable(channels[ticket])
      ensures index == if channels[ticket].value.Some? then channels[ticket].value
                       else if channels[ticket].closed then Some(0) else None
      ensures index.None? ==> results == old(results) && waiting == old(waiting)
      ensures index.Some? ==> results == old(results)[ticket := index.value] && waiting == old(waiting) - {ticket}
      ensures old(Serving()) ==> Serving()
    {
      var channel := channels[ticket];
      index := if channel.value.Some? then channel.value else if channel.closed then Some(0) else None;
      if index.Some? {
        results := results[ticket := index.value];
        waiting := waiting - {ticket};
      }
    }

    /** The node runs, and what it reports as applied is in the store. */
    ghost predicate Live()
      reads this, node, node.kv, node.wal, node.wal.disk, node.snaps
    {
      Serving() && node.Valid() && Fresh(node.appliedIndex, node.Now())
    }

    /** Confirmations are handed out and the batch is processed. */
    method Process(rd: Ready, term: nat, states: seq<ReadState>, ghost origins: seq<nat>)
      requires Live() && Answers(states, origins, requests, outstanding)
      requires Offered(node.wal.codec, node.wal.entries, node.Now().commit, node.log, node.mode.cursor, rd)
      modifies this`waiters, this`channels, this`outstanding
      modifies node, node.wal, node.wal.disk, node.kv`disk, node.snaps
      ensures Live() && requests == old(requests) && outstanding == old(outstanding) - Answered(origins)
      ensures results == old(results) && waiting == old(waiting)
      ensures old(Exact(node.appliedIndex, node.Now())) ==>
                Exact(node.appliedIndex, node.Now()) && node.appliedIndex >= old(node.appliedIndex)
      ensures node.appliedIndex >= old(node.appliedIndex) <==>
                rd.committed == [] || old(node.mode).cursor + |rd.committed| >= old(node.appliedIndex)
      ensures Now() == ConfirmAll(old(Now()), states)
      ensures node.mode == Running(old(node.mode).cursor + |rd.committed|)
      ensures Business(node.kv.disk) == Business(Fold(old(node.kv.disk), Commands(rd.committed)))
    {
      hide Run, Step, Business, Fold, NextLog, Offered, Expected, FreshAt, Covered, Matched, Owned, Answers, ConfirmAll;
      HandleReadStates(states, origins);
      Advance(rd, term);
    }

    method Advance(rd: Ready, term: nat)
      requires node.Valid() && Fresh(node.appliedIndex, node.Now())
      requires Offered(node.wal.codec, node.wal.entries, node.Now().commit, node.log, node.mode.cursor, rd)
      modifies node, node.wal, node.wal.disk, node.kv`disk, node.snaps
      ensures node.Valid() && Fresh(node.appliedIndex, node.Now())
      ensures old(Exact(node.appliedIndex, node.Now())) ==>
                Exact(node.appliedIndex, node.Now()) && node.appliedIndex >= old(node.appliedIndex)
      ensures node.appliedIndex >= old(node.appliedIndex) <==>
                rd.committed == [] || old(node.mode).cursor + |rd.committed| >= old(node.appliedIndex)
      ensures node.mode == Running(old(node.mode).cursor + |rd.committed|)
      ensures Business(node.kv.disk) == Business(Fold(old(node.kv.disk), Commands(rd.committed)))
    {
      hide Run, Step, Holds, SegmentsOf, Flatten, Contiguous, AppliedIndexOf, Business, Fold, FlatAppend, NextLog,
        Offered, Inv, SnapshotAt, Expected, FreshAt;
      ghost var before, applied := node.Now(), node.appliedIndex;
      OfferedFacts(node.history, before, node.wal.codec, rd);
      node.HandleReady(rd, term);
      DeliveredIsFresh(node.history, |node.history| - 1);
      ProcessedIsFresh(before, node.Now(), applied, rd.committed);
      if old(Exact(node.appliedIndex, node.Now())) {
        ExactNext(before, node.Now(), rd.committed);
      }
    }

    /** One look at the reported applied index, by a request that has returned from waiting.  Passing means
        that everything committed when the read was requested is reported as applied. */
    method Poll(ticket: nat) returns (passed: bool)
      requires Live() && ticket in results
      ensures passed <==> node.appliedIndex >= results[ticket]
      ensures passed ==> ticket in requests && requests[ticket].floor <= node.appliedIndex
    {
      passed := node.appliedIndex >= results[ticket];
    }

    /** The store read that follows, at any later moment: while the reported index is still at or past what
        was committed when the read was requested, the key's value is the one of some prefix of the
        committed log that holds all of that. */
    method Get(key: string, ghost floor: nat) returns (value: string)
      requires Live() && !IsMetaKey(key) && floor <= node.appliedIndex
      ensures value == if key in node.kv.disk then node.kv.disk[key] else ""
      ensures exists q :: floor <= q <= |node.log| && value == Shown(ValueAt(node.log, q, key))
    {
      FreshBelow(node.kv.disk, node.appliedIndex, floor, node.log);
      var got := node.kv.Get(key);
      ghost var q :| floor <= q <= |node.log| && Lookup(node.kv.disk, key) == ValueAt(node.log, q, key);
      value := got.value;
    }
  }

  /** The value of a key in a prefix of the log: that of the last normal entry whose command touches it, empty
      after a delete or when there is none (`i == -1`). */
  lemma PrefixValueExactly(log: seq<Entry>, q: nat, key: string, i: int)
    requires q <= |log| && !("__meta__/" <= key) && -1 <= i < q
    requires forall j :: 0 <= j < q && i <= j ==>
               (j == i <==>
                && log[j].kind.Normal?
                && match log[j].command
                   case Some(Put(k, _)) => k == key
                   case Some(Delete(k)) => k == key
                   case Some(DeletePrefix(prefix)) =>
                     prefix <= key && (|key| == |prefix| || key[|prefix|] < '\U{FF}')
                   case _ => false)
    ensures Shown(ValueAt(log, q, key)) ==
            if i >= 0 && log[i].command.value.Put? then log[i].command.value.value else ""
  {
    hide Fold, Commands;
    SettledByLastEntry(Fold(map[], Commands(log[..q])), log[..q], key, i);
  }

  /** A missing key reads as the empty value. */
  function Shown(write: Write): string {
    match write
    case Stored(value) => value
    case Cleared => ""
    case Untouched => ""
  }

  lemma FreshBelow(kv: Db, p: nat, low: nat, log: seq<Entry>)
    requires FreshAt(kv, p, log) && low <= p
    ensures FreshAt(kv, low, log)
  {
  }

  lemma ProcessedIsFresh(a: State, b: State, applied: nat, committed: seq<Entry>)
    requires Fresh(applied, a) && a.log <= b.log && b.mode.Running? && b.mode.cursor <= |b.log|
    requires Business(b.kv) == Business(Fold(a.kv, Commands(committed)))
    requires committed != [] ==> FreshAt(b.kv, b.mode.cursor, b.log)
    ensures Fresh(if committed == [] then applied else b.mode.cursor, b)
  {
    if committed == [] {
      FreshGrown(a.kv, applied, a.log, b.log[|a.log|..]);
      assert a.log + b.log[|a.log|..] == b.log;
      assert Commands(committed) == [] && Business(b.kv) == Business(a.kv);
      FreshMeta(a.kv, b.kv, applied, b.log);
    }
  }

  /** From an exact start, delivering the next entries keeps the store exact. */
  lemma ExactNext(a: State, b: State, committed: seq<Entry>)
    requires a.mode.Running? && Exact(a.mode.cursor, a) && a.log <= b.log
    requires a.mode.cursor + |committed| <= |b.log|
    requires committed == b.log[a.mode.cursor..a.mode.cursor + |committed|]
    requires b.mode == Running(a.mode.cursor + |committed|)
    requires Business(b.kv) == Business(Fold(a.kv, Commands(committed)))
    ensures Exact(b.mode.cursor, b)
  {
    hide Business, Fold;
    var p := a.mode.cursor;
    var front := b.log[..p];
    assert front == a.log[..p];
    assert b.log[..p + |committed|] == front + committed;
    CommandsConcat(front, committed);
    FoldOfConcat(map[], Commands(front), Commands(committed));
    BusinessOfFold(a.kv, Fold(map[], Commands(front)), Commands(committed));
  }

  /** After a start the store is complete; the reported index is exact when the newest snapshot already
      covers the whole committed log, and only then. */
  lemma ExactAfterStart(s: nat, applied: nat, st: State)
    requires st.mode == Running(s) && applied == |st.log| && Business(st.kv) == Expected(st.log)
    ensures Exact(applied, st) <==> s == |st.log|
    ensures Fresh(applied, st)
  {
    assert st.log[..|st.log|] == st.log;
    FreshWhenComplete(st.kv, applied, st.log);
  }

  /** Otherwise redelivery rolls single keys back: a value that could be read before it is gone after. */
  lemma RedeliveryGoesBack()
    ensures var log := [Entry(1, 1, Normal, Some(Put("/k", "old"))), Entry(2, 1, Normal, Some(Put("/k", "new")))];
            var booted := Fold(map[], Commands(log));
            Lookup(booted, "/k") == Stored("new")
            && Lookup(Fold(booted, Commands(log[0..1])), "/k") == Stored("old")
  {
    var log := [Entry(1, 1, Normal, Some(Put("/k", "old"))), Entry(2, 1, Normal, Some(Put("/k", "new")))];
    FoldByKey(map[], Commands(log), "/k");
    FoldByKey(Fold(map[], Commands(log)), Commands(log[0..1]), "/k");
  }
}
