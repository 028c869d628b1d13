/** The watch hub: a bounded history of published events, and one bounded channel per watcher.

    Each operation is one atomic step.  A watcher whose channel is full when an event arrives is cut off:
    its channel is closed, and what it already holds can still be received.
 */
module WatchHub {
  import Options
  import opened Bytes
  import opened Mirror

  const HISTORY_LIMIT := 2048
  const DEFAULT_BUFFER := 64

  datatype Channel = Channel(buffer: seq<Event>, capacity: nat, closed: bool)

  /** History of the hub for one watcher: where in the published events it began, where its channel was
      closed, and what was already received. */
  datatype Span = Span(start: nat, stop: nat, received: seq<Event>)

  predicate Increasing(events: seq<Event>) {
    forall i, j :: 0 <= i < j < |events| ==> events[i].revision < events[j].revision
  }

  function Above(events: seq<Event>, since: nat): seq<Event> {
    if events == [] then []
    else Above(events[..|events| - 1], since)
         + (if events[|events| - 1].revision > since then [events[|events| - 1]] else [])
  }

  function LastPart(events: seq<Event>, n: nat): seq<Event> {
    if |events| <= n then events else events[|events| - n..]
  }

  /** Whether a history covers everything after a revision; the successor is taken in 64 bits. */
  predicate Covers(history: seq<Event>, since: nat) {
    && since != 0 && history != []
    && (since > history[|history| - 1].revision || (since + 1) % UINT64_LIMIT >= history[0].revision)
  }

  lemma {:induction false} AboveConcat(a: seq<Event>, b: seq<Event>, since: nat)
    ensures Above(a + b, since) == Above(a, since) + Above(b, since)
    decreases |b|
  {
    if b == [] {
      assert a + b == a;
    } else {
      assert (a + b)[..|a + b| - 1] == a + b[..|b| - 1];
      AboveConcat(a, b[..|b| - 1], since);
    }
  }

  lemma {:induction false} NothingAbove(events: seq<Event>, since: nat)
    requires forall e :: e in events ==> e.revision <= since
    ensures Above(events, since) == []
    decreases |events|
  {
    if events != [] {
      NothingAbove(events[..|events| - 1], since);
    }
  }

  /** A covering history replays exactly the events above the revision that were ever published. */
  lemma ReplayIsComplete(published: seq<Event>, since: nat)
    requires Increasing(published) && since < UINT64_LIMIT && Covers(LastPart(published, HISTORY_LIMIT), since)
    ensures Above(LastPart(published, HISTORY_LIMIT), since) == Above(published, since)
  {
    var history := LastPart(published, HISTORY_LIMIT);
    var gone := published[..|published| - |history|];
    assert published == gone + history && history == published[|gone|..];
    assert history != [] by { assert Covers(history, since); }
    hide Covers, Above, Increasing;
    GoneAreBelow(published, |gone|, since);
    NothingAbove(gone, since);
    AboveConcat(gone, history, since);
    assert [] + Above(history, since) == Above(history, since);
  }

  lemma GoneAreBelow(published: seq<Event>, n: nat, since: nat)
    requires Increasing(published) && n < |published| && since < UINT64_LIMIT && Covers(published[n..], since)
    ensures forall e :: e in published[..n] ==> e.revision <= since
  {
    var history := published[n..];
    assert history[0] == published[n] && history[|history| - 1] == published[|published| - 1];
    forall e | e in published[..n] ensures e.revision <= since {
      var i :| 0 <= i < n && published[..n][i] == e;
      assert published[i] == e;
    }
  }

  /** When a replay is exact, in terms of all events ever published, of which the last 2048 are retained. */
  lemma CoversExactly(published: seq<Event>, since: nat)
    requires Increasing(published) && since < 0x1_0000_0000_0000_0000
    ensures Covers(LastPart(published, HISTORY_LIMIT), since) <==>
              && since > 0 && published != []
              && var oldest := published[if |published| > 2048 then |published| - 2048 else 0].revision;
                 || published[|published| - 1].revision < since
                 || (if since == 0xFFFF_FFFF_FFFF_FFFF then oldest == 0 else oldest <= since + 1)
  {
    if published != [] {
      var history := LastPart(published, HISTORY_LIMIT);
      assert history[|history| - 1] == published[|published| - 1];
    }
  }

  /** The events above a revision are the published ones from some position on. */
  lemma {:induction false} AboveExactly(published: seq<Event>, since: nat)
    requires Increasing(published)
    ensures var n := |Above(published, since)|;
            && n <= |published| && Above(published, since) == published[|published| - n..]
            && forall i :: 0 <= i < |published| ==> (published[i].revision > since <==> i >= |published| - n)
    decreases |published|
  {
    if published != [] {
      var front, last := published[..|published| - 1], published[|published| - 1];
      AboveExactly(front, since);
      assert published == front + [last];
      if last.revision <= since {
        NothingAbove(front, since);
      }
    }
  }

  /** A watcher that saw everything up to a retained event gets precisely what came after it. */
  lemma RetainedIsReplayed(published: seq<Event>, since: nat, k: nat)
    requires Increasing(published) && 0 < since < 0xFFFF_FFFF_FFFF_FFFF
    requires k < |published| <= k + 2048 && published[k].revision <= since
    requires k + 1 < |published| ==> since < published[k + 1].revision
    ensures Covers(LastPart(published, HISTORY_LIMIT), since) && Above(published, since) == published[k + 1..]
  {
    CoversExactly(published, since);
    AboveExactly(published, since);
    assert forall i :: 0 <= i <= k ==> published[i].revision <= since;
  }

  lemma NothingLater(published: seq<Event>, since: nat)
    requires Increasing(published)
    requires var history := LastPart(published, HISTORY_LIMIT);
             history != [] && history[|history| - 1].revision < since
    ensures Above(LastPart(published, HISTORY_LIMIT), since) == []
  {
    var history := LastPart(published, HISTORY_LIMIT);
    assert Increasing(history);
    NothingAbove(history, since);
  }

  lemma ReplayFacts(published: seq<Event>, since: nat)
    requires Increasing(published) && since < 0x1_0000_0000_0000_0000
    ensures var exact, replay := Covers(LastPart(published, HISTORY_LIMIT), since), Above(published, since);
            && (exact <==>
                  && since > 0 && published != []
                  && var oldest := published[if |published| > 2048 then |published| - 2048 else 0].revision;
                     || published[|published| - 1].revision < since
                     || (if since == 0xFFFF_FFFF_FFFF_FFFF then oldest == 0 else oldest <= since + 1))
            && |replay| <= |published| && replay == published[|published| - |replay|..]
            && (forall i :: 0 <= i < |published| ==>
                  (published[i].revision > since <==> i >= |published| - |replay|))
            && forall k :: 0 <= k < |published| <= k + 2048 && since == published[k].revision
                           && 0 < since < 0xFFFF_FFFF_FFFF_FFFF ==>
                 exact && replay == published[k + 1..]
  {
    hide Covers, Above, LastPart;
    CoversExactly(published, since);
    AboveExactly(published, since);
    forall k | 0 <= k < |published| <= k + 2048 && since == published[k].revision && 0 < since < 0xFFFF_FFFF_FFFF_FFFF
      ensures Covers(LastPart(published, HISTORY_LIMIT), since) && Above(published, since) == published[k + 1..] {
      RetainedIsReplayed(published, since, k);
    }
  }

  /** Below the covered range events are lost: the very event before the oldest retained one is missing. */
  lemma UncoveredMisses(published: seq<Event>, since: nat)
    requires Increasing(published) && |published| > HISTORY_LIMIT
    requires since < published[|published| - HISTORY_LIMIT - 1].revision
    ensures Above(LastPart(published, HISTORY_LIMIT), since) != Above(published, since)
  {
    var history := LastPart(published, HISTORY_LIMIT);
    var gone := published[..|published| - HISTORY_LIMIT];
    assert published == gone + history;
    AboveConcat(gone, history, since);
    assert gone[|gone| - 1] == published[|published| - HISTORY_LIMIT - 1];
    assert |Above(gone, since)| >= 1;
  }

  /** A watcher's channel after an event: one more in the buffer, or closed when it is full. */
  function Offer(channel: Channel, event: Event): Channel {
    if |channel.buffer| < channel.capacity then channel.(buffer := channel.buffer + [event])
    else channel.(closed := true)
  }

  /** What a watcher has received and can still receive is a run of published events without gaps; it
      reaches to the latest event until the channel is closed. */
  ghost predicate GapFree(span: Span, channel: Channel, watching: bool, published: seq<Event>) {
    && span.start <= span.stop <= |published|
    && span.received + channel.buffer == published[span.start..span.stop]
    && (if watching then !channel.closed && span.stop == |published| else channel.closed)
  }

  lemma OpenWhileWatched(span: Span, channel: Channel, published: seq<Event>)
    requires GapFree(span, channel, true, published)
    ensures !channel.closed
  {
  }

  /** The first event in a channel is the published one behind those received. */
  lemma ReceivedIsPublished(span: Span, channel: Channel, watching: bool, published: seq<Event>)
    requires GapFree(span, channel, watching, published) && channel.buffer != []
    ensures var next := span.start + |span.received|;
            next < |published| && channel.buffer[0] == published[next]
    ensures GapFree(span.(received := span.received + [channel.buffer[0]]), channel.(buffer := channel.buffer[1..]),
                    watching, published)
  {
    var all := span.received + channel.buffer;
    assert all[|span.received|] == channel.buffer[0];
    assert all == (span.received + [channel.buffer[0]]) + channel.buffer[1..];
  }

  lemma PublishKeepsGapFree(span: Span, channel: Channel, watching: bool, published: seq<Event>, event: Event)
    requires GapFree(span, channel, watching, published)
    ensures var more, after := published + [event], Offer(channel, event);
            if !watching then GapFree(span, channel, false, more)
            else if after.closed then GapFree(span, after, false, more)
            else GapFree(span.(stop := |more|), after, true, more)
  {
    var all := published + [event];
    assert all[span.start..span.stop] == published[span.start..span.stop];
    if watching {
      assert all[span.start..|all|] == published[span.start..] + [event];
      assert span.received + (channel.buffer + [event]) == (span.received + channel.buffer) + [event];
    }
  }

  class WatchHub {
    var nextId: nat
    var watchers: set<nat>
    var channels: map<nat, Channel>
    var history: seq<Event>
    ghost var published: seq<Event>
    ghost var spans: map<nat, Span>

    constructor ()
      ensures Valid() && published == [] && watchers == {} && channels == map[]
    {
      nextId, watchers, channels, history := 0, {}, map[], [];
      published, spans := [], map[];
    }

    ghost predicate Valid()
      reads this
    {
      && Increasing(published)
      && history == LastPart(published, HISTORY_LIMIT)
      && watchers <= channels.Keys == spans.Keys
      && (forall id :: id in channels ==> id <= nextId && GapFree(spans[id], channels[id], id in watchers, published))
    }

    method SubscribeSince(buffer: int, since: nat) returns (id: nat, replay: seq<Event>, exact: bool)
      requires Valid() && since < UINT64_LIMIT
      modifies this
      ensures Valid() && published == old(published) && history == old(history)
      ensures id !in old(channels) && id in watchers && id in spans && spans[id] == Span(|published|, |published|, [])
      ensures watchers == old(watchers) + {id}
      ensures channels == old(channels)[id := Channel([], if buffer <= 0 then 64 else buffer, false)]
      ensures exact <==> Covers(history, since)
      ensures exact ==> replay == Above(published, since)
      ensures exact <==>
                && since > 0 && published != []
                && var oldest := published[if |published| > 2048 then |published| - 2048 else 0].revision;
                   || published[|published| - 1].revision < since
                   || (if since == 0xFFFF_FFFF_FFFF_FFFF then oldest == 0 else oldest <= since + 1)
      ensures exact ==>
                && |replay| <= |published| && replay == published[|published| - |replay|..]
                && forall i :: 0 <= i < |published| ==>
                     (published[i].revision > since <==> i >= |published| - |replay|)
      ensures forall k :: 0 <= k < |published| <= k + 2048 && since == published[k].revision
                          && 0 < since < 0xFFFF_FFFF_FFFF_FFFF ==>
                exact && replay == published[k + 1..]
      ensures !exact ==> replay == []
    {
      hide Increasing, LastPart, GapFree, Covers, Above;
      id := AddWatcher(buffer);
      replay, exact := ReplaySince(since);
    }

    method AddWatcher(buffer: int) returns (id: nat)
      requires Valid()
      modifies this`nextId, this`channels, this`watchers, this`spans
      ensures Valid()
      ensures id !in old(channels) && id in watchers && id in spans && spans[id] == Span(|published|, |published|, [])
      ensures watchers == old(watchers) + {id}
      ensures channels == old(channels)[id := Channel([], if buffer <= 0 then 64 else buffer, false)]
    {
      nextId := nextId + 1;
      id := nextId;
      channels := channels[id := Channel([], if buffer <= 0 then DEFAULT_BUFFER else buffer, false)];
      watchers := watchers + {id};
      spans := spans[id := Span(|published|, |published|, [])];
      assert published[|published|..|published|] == [];
    }

    method ReplaySince(since: nat) returns (replay: seq<Event>, exact: bool)
      requires Valid() && since < UINT64_LIMIT
      ensures exact <==> Covers(history, since)
      ensures exact ==> replay == Above(published, since)
      ensures exact <==>
                && since > 0 && published != []
                && var oldest := published[if |published| > 2048 then |published| - 2048 else 0].revision;
                   || published[|published| - 1].revision < since
                   || (if since == 0xFFFF_FFFF_FFFF_FFFF then oldest == 0 else oldest <= since + 1)
      ensures exact ==>
                && |replay| <= |published| && replay == published[|published| - |replay|..]
                && forall i :: 0 <= i < |published| ==>
                     (published[i].revision > since <==> i >= |published| - |replay|)
      ensures forall k :: 0 <= k < |published| <= k + 2048 && since == published[k].revision
                          && 0 < since < 0xFFFF_FFFF_FFFF_FFFF ==>
                exact && replay == published[k + 1..]
      ensures !exact ==> replay == []
    {
      hide Above, LastPart, Increasing, GapFree;
      ReplayFacts(published, since);
      if since == 0 || |history| == 0 {
        return [], false;
      }
      var oldest, latest := history[0].revision, history[|history| - 1].revision;
      if since > latest {
        ReplayIsComplete(published, since);
        NothingLater(published, since);
        return [], true;
      }
      if (since + 1) % UINT64_LIMIT < oldest {
        return [], false;
      }
      ReplayIsComplete(published, since);
      replay := EventsAbove(since);
      return replay, true;
    }

    method EventsAbove(since: nat) returns (replay: seq<Event>)
      ensures replay == Above(history, since)
    {
      replay := [];
      for i := 0 to |history|
        invariant replay == Above(history[..i], since)
      {
        assert history[..i + 1][..i] == history[..i];
        if history[i].revision > since {
          replay := replay + [history[i]];
        }
      }
      assert history[..|history|] == history;
    }

    /** The watcher is forgotten and its channel closed; doing it again changes nothing. */
    method Unsubscribe(id: nat)
      requires Valid()
      modifies this`watchers, this`channels
      ensures Valid()
      ensures watchers == old(watchers) - {id}
      ensures channels
              == if id in old(watchers) then old(channels)[id := old(channels)[id].(closed := true)] else old(channels)
    {
      if id in watchers {
        watchers := watchers - {id};
        channels := channels[id := channels[id].(closed := true)];
      }
    }

    /** Every watcher with room gets the event, every other is cut off. */
    method Publish(event: Event)
      requires Valid() && forall e :: e in published ==> e.revision < event.revision
      modifies this`watchers, this`channels, this`history, this`published, this`spans
      ensures Valid() && published == old(published) + [event]
      ensures channels.Keys == old(channels.Keys)
      ensures forall id :: id in channels ==>
                var channel := old(channels)[id];
                channels[id] == if id !in old(watchers) then channel
                                else if |channel.buffer| < channel.capacity then
                                  channel.(buffer := channel.buffer + [event])
                                else channel.(closed := true)
      ensures forall id :: id in watchers <==> id in old(watchers) && !channels[id].closed
    {
      hide GapFree, LastPart, Increasing;
      forall id | id in watchers ensures !channels[id].closed {
        OpenWhileWatched(spans[id], channels[id], published);
      }
      AppendHistory(event);
      Deliver(event);
      spans := map id | id in spans :: if id in watchers then spans[id].(stop := |published|) else spans[id];
      forall id | id in channels ensures GapFree(spans[id], channels[id], id in watchers, published) {
        PublishKeepsGapFree(old(spans)[id], old(channels)[id], id in old(watchers), old(published), event);
      }
    }

    method Deliver(event: Event)
      requires watchers <= channels.Keys && forall id :: id in watchers ==> !channels[id].closed
      modifies this`watchers, this`channels
      ensures channels.Keys == old(channels.Keys)
      ensures forall id :: id in channels ==>
                channels[id] == if id in old(watchers) then Offer(old(channels)[id], event) else old(channels)[id]
      ensures forall id :: id in watchers <==> id in old(watchers) && !channels[id].closed
    {
      var slow := Broadcast(event);
      Cut(slow);
    }

    method AppendHistory(event: Event)
      requires history == LastPart(published, HISTORY_LIMIT) && Increasing(published)
      requires forall e :: e in published ==> e.revision < event.revision
      modifies this`history, this`published
      ensures published == old(published) + [event] && Increasing(published)
      ensures history == LastPart(published, HISTORY_LIMIT)
    {
      published := published + [event];
      history := history + [event];
      if |history| > HISTORY_LIMIT {
        history := history[|history| - HISTORY_LIMIT..];
      }
    }

    /** Sends to every watcher without waiting; the ones without room are returned. */
    method Broadcast(event: Event) returns (slow: set<nat>)
      requires watchers <= channels.Keys
      modifies this`channels
      ensures slow == Full(watchers, old(channels)) && channels.Keys == old(channels.Keys)
      ensures forall id :: id in channels ==>
                channels[id] == if id in watchers - slow then Offer(old(channels)[id], event) else old(channels)[id]
    {
      hide Offer, Full, Offered;
      ghost var before := channels;
      var ahead := watchers;
      slow := {};
      NoneOffered(before, event);
      assert watchers - ahead == {};
      while ahead != {}
        invariant ahead <= watchers
        invariant slow == Full(watchers - ahead, before) && channels == Offered(watchers - ahead, before, event)
        decreases |ahead|
      {
        var id :| id in ahead;
        OneMore(watchers - ahead, before, id, event);
        assert watchers - (ahead - {id}) == watchers - ahead + {id};
        ahead := ahead - {id};
        var sent := Send(id, event);
        if !sent {
          slow := slow + {id};
        }
      }
      assert watchers - {} == watchers;
      OfferedFacts(watchers, before, event);
    }

    /** A send that does not wait: a full channel is left as it is. */
    method Send(id: nat, event: Event) returns (sent: bool)
      requires id in channels
      modifies this`channels
      ensures sent == (|old(channels)[id].buffer| < old(channels)[id].capacity)
      ensures channels == if sent then old(channels)[id := Offer(old(channels)[id], event)] else old(channels)
    {
      sent := |channels[id].buffer| < channels[id].capacity;
      if sent {
        channels := channels[id := channels[id].(buffer := channels[id].buffer + [event])];
      }
    }

    /** Full channels are closed and their watchers removed. */
    method Cut(slow: set<nat>)
      requires slow <= watchers <= channels.Keys
      modifies this`watchers, this`channels
      ensures watchers == old(watchers) - slow && channels.Keys == old(channels.Keys)
      ensures forall id :: id in channels ==>
                channels[id] == if id in slow then old(channels)[id].(closed := true) else old(channels)[id]
    {
      ghost var before := channels;
      var ahead := slow;
      ghost var all := watchers;
      while ahead != {}
        invariant ahead <= slow && channels.Keys == before.Keys
        invariant watchers == all - (slow - ahead)
        invariant forall id :: id in before ==>
                    channels[id] == if id in slow - ahead then before[id].(closed := true) else before[id]
        decreases |ahead|
      {
        var id :| id in ahead;
        ahead := ahead - {id};
        watchers := watchers - {id};
        channels := channels[id := channels[id].(closed := true)];
      }
    }

    /** A watcher takes the next event; None when nothing is there, and nothing more will come once the
        channel is closed as well. */
    method Receive(id: nat) returns (event: Options.Option<Event>)
      requires Valid() && id in channels
      modifies this`channels, this`spans
      ensures Valid() && id in channels && id in spans && id in old(spans)
      ensures spans[id] == old(spans[id]).(received := spans[id].received)
      ensures event.None? <==> old(channels)[id].buffer == []
      ensures event.None? ==> channels == old(channels) && spans == old(spans)
      ensures event.Some? ==> var next := spans[id].start + |old(spans[id].received)|;
                              next < |published| && event.value == published[next]
      ensures event.Some? ==> spans[id].received == old(spans[id].received) + [event.value]
                              && channels[id].buffer == old(channels)[id].buffer[1..]
    {
      if |channels[id].buffer| == 0 {
        return Options.None;
      }
      var buffer := channels[id].buffer;
      event := Options.Some(buffer[0]);
      ReceivedIsPublished(spans[id], channels[id], id in watchers, published);
      hide GapFree, LastPart, Increasing;
      channels := channels[id := channels[id].(buffer := buffer[1..])];
      spans := spans[id := spans[id].(received := spans[id].received + [buffer[0]])];
    }
  }

  /** The channels after some watchers were sent an event. */
  function Offered(watchers: set<nat>, channels: map<nat, Channel>, event: Event): map<nat, Channel> {
    map id | id in channels ::
      if id in watchers && |channels[id].buffer| < channels[id].capacity then Offer(channels[id], event)
      else channels[id]
  }

  lemma NoneOffered(channels: map<nat, Channel>, event: Event)
    ensures Full({}, channels) == {} && Offered({}, channels, event) == channels
  {
  }

  lemma OneMore(watchers: set<nat>, channels: map<nat, Channel>, id: nat, event: Event)
    requires watchers <= channels.Keys && id in channels && id !in watchers
    ensures var room, sent := |channels[id].buffer| < channels[id].capacity, Offered(watchers, channels, event);
            && id in sent && sent[id] == channels[id]
            && Full(watchers + {id}, channels) == Full(watchers, channels) + (if room then {} else {id})
            && Offered(watchers + {id}, channels, event)
               == if room then sent[id := Offer(channels[id], event)] else sent
  {
    hide Offer;
  }

  lemma OfferedFacts(watchers: set<nat>, channels: map<nat, Channel>, event: Event)
    requires watchers <= channels.Keys
    ensures var slow, sent := Full(watchers, channels), Offered(watchers, channels, event);
            sent.Keys == channels.Keys && slow <= watchers
            && forall id :: id in sent ==>
                 sent[id] == if id in watchers - slow then Offer(channels[id], event) else channels[id]
  {
    hide Offer;
  }

  /** The watchers whose channel has no room. */
  function Full(watchers: set<nat>, channels: map<nat, Channel>): set<nat>
    requires watchers <= channels.Keys
  {
    set id | id in watchers && |channels[id].buffer| >= channels[id].capacity
  }
}
