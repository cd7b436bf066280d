/**
 The bounded "continue the paused turn" protocol, in its two forms: the loop that sends
 whole requests and the stream that opens the next one when a paused stream ends.
 */
module PauseTurns {
  import opened Wrappers

  /** The most continuations one call makes. */
  const MAX_CONTINUATIONS: nat := 10

  /** What the conversion code supplies: it says which messages can be replayed, and builds turns. */
  datatype Conversion<!Msg, !Turn, !Update> = Conversion(
    replayable: Msg -> bool,
    messages: Turn -> seq<Msg>,
    merge: (Turn, Turn) -> Turn,
    fromUpdates: seq<Update> -> Turn)

  /** The server's answer to one request. */
  datatype Reply<+Turn, +E> = Answered(turn: Turn, paused: bool) | Failed(error: E)

  /** One streamed answer: its updates, then its end, which says whether a pause was flagged. */
  datatype Stream<+Update, +E> = Stream(updates: seq<Update>, end: End<E>)

  datatype End<+E> = Exhausted(paused: bool) | Broken(error: E)

  predicate AllReplayable<Msg, Turn, Update>(c: Conversion<Msg, Turn, Update>, turn: Turn) {
    forall i :: 0 <= i < |c.messages(turn)| ==> c.replayable(c.messages(turn)[i])
  }

  /** The rule both forms share: after request number `n`, is the turn continued? */
  predicate Continues<Msg, Turn, Update>(c: Conversion<Msg, Turn, Update>, turn: Turn, paused: bool, n: nat) {
    paused && n < MAX_CONTINUATIONS && AllReplayable(c, turn)
  }

  // --- whole requests --------------------------------------------------------------

  /** The requests of one call, the turns they brought and the failure that ended it, if any. */
  datatype Exchange<Msg, Turn, E> = Exchange(requests: seq<seq<Msg>>, turns: seq<Turn>, failure: Option<E>)

  function ExchangeFrom<Msg, Turn, Update, E>(
      c: Conversion<Msg, Turn, Update>, send: (nat, seq<Msg>) -> Reply<Turn, E>, conversation: seq<Msg>, n: nat)
      : (x: Exchange<Msg, Turn, E>)
    requires n <= MAX_CONTINUATIONS
    ensures x.failure.None? ==> x.turns != []
    decreases MAX_CONTINUATIONS - n
  {
    match send(n, conversation)
    case Failed(e) => Exchange([conversation], [], Some(e))
    case Answered(turn, paused) =>
      if Continues(c, turn, paused, n) then
        var rest := ExchangeFrom(c, send, conversation + c.messages(turn), n + 1);
        Exchange([conversation] + rest.requests, [turn] + rest.turns, rest.failure)
      else Exchange([conversation], [turn], None)
  }

  /** The turns merged, the earliest first. */
  function MergeAll<Msg, Turn, Update>(c: Conversion<Msg, Turn, Update>, acc: Turn, turns: seq<Turn>): Turn {
    if turns == [] then acc else MergeAll(c, c.merge(acc, turns[0]), turns[1..])
  }

  function Outcome<Msg, Turn, Update, E>(c: Conversion<Msg, Turn, Update>, x: Exchange<Msg, Turn, E>): Result<Turn, E>
    requires x.failure.None? ==> x.turns != []
  {
    match x.failure
    case Some(e) => Err(e)
    case None => Ok(MergeAll(c, x.turns[0], x.turns[1..]))
  }

  /** The outcome of an exchange whose earlier turns are already merged. */
  function OutcomeAfter<Msg, Turn, Update, E>(
      c: Conversion<Msg, Turn, Update>, merged: Option<Turn>, x: Exchange<Msg, Turn, E>): Result<Turn, E>
    requires x.failure.None? ==> x.turns != []
  {
    match merged
    case None => Outcome(c, x)
    case Some(acc) => if x.failure.Some? then Err(x.failure.value) else Ok(MergeAll(c, acc, x.turns))
  }

  method ContinuePausedTurns<Msg, Turn, Update, E>(
      c: Conversion<Msg, Turn, Update>, send: (nat, seq<Msg>) -> Reply<Turn, E>, messages: seq<Msg>)
      returns (result: Result<Turn, E>, ghost requests: seq<seq<Msg>>)
    ensures result == Outcome(c, ExchangeFrom(c, send, messages, 0))
    ensures requests == ExchangeFrom(c, send, messages, 0).requests
  {
    hide ExchangeFrom;
    var conversation := messages;
    var merged: Option<Turn> := None;
    requests := [];
    ghost var whole := ExchangeFrom(c, send, messages, 0);
    var continuation := 0;
    while true
      invariant continuation <= MAX_CONTINUATIONS
      invariant OutcomeAfter(c, merged, ExchangeFrom(c, send, conversation, continuation)) == Outcome(c, whole)
      invariant requests + ExchangeFrom(c, send, conversation, continuation).requests == whole.requests
      decreases MAX_CONTINUATIONS - continuation
    {
      ExchangeStep(c, send, conversation, continuation);
      requests := requests + [conversation];
      var reply := send(continuation, conversation);
      if reply.Failed? {
        return Err(reply.error), requests;
      }
      var turn := reply.turn;
      var canContinue := Continues(c, turn, reply.paused, continuation);
      if canContinue {
        conversation := conversation + c.messages(turn);
      }
      ghost var before := merged;
      merged := match merged
        case None => Some(turn)
        case Some(acc) => Some(c.merge(acc, turn));
      if !canContinue {
        MergeOne(c, if before.Some? then before.value else turn, turn);
        break;
      }
      continuation := continuation + 1;
    }
    result := Ok(merged.value);
  }

  lemma MergeOne<Msg, Turn, Update>(c: Conversion<Msg, Turn, Update>, acc: Turn, turn: Turn)
    ensures MergeAll(c, acc, [turn]) == c.merge(acc, turn)
    ensures MergeAll(c, turn, [turn][1..]) == turn
  {
    assert [turn][1..] == [];
  }

  lemma ExchangeStep<Msg, Turn, Update, E>(
      c: Conversion<Msg, Turn, Update>, send: (nat, seq<Msg>) -> Reply<Turn, E>, conversation: seq<Msg>, n: nat)
    requires n <= MAX_CONTINUATIONS
    ensures ExchangeFrom(c, send, conversation, n) ==
            match send(n, conversation)
            case Failed(e) => Exchange([conversation], [], Some(e))
            case Answered(turn, paused) =>
              if Continues(c, turn, paused, n) then
                var rest := ExchangeFrom(c, send, conversation + c.messages(turn), n + 1);
                Exchange([conversation] + rest.requests, [turn] + rest.turns, rest.failure)
              else Exchange([conversation], [turn], None)
  {
  }

  // --- streams -----------------------------------------------------------------------

  /** What a consumer gets: an update, or the error that ends the stream. */
  type Item<Update, E> = Result<Update, E>

  function Updates<Update, E>(updates: seq<Update>): (r: seq<Item<Update, E>>)
    ensures |r| == |updates|
    ensures forall i :: 0 <= i < |r| ==> r[i] == Ok(updates[i])
  {
    AllOk(updates)
  }

  /** A streamed call: its requests, the streams it opened, and what it yields. */
  datatype Broadcast<Msg, Update, E> =
    Broadcast(requests: seq<seq<Msg>>, streams: seq<Stream<Update, E>>, items: seq<Item<Update, E>>)

  type Opener<!Msg, Update, E> = (nat, seq<Msg>) -> Result<Stream<Update, E>, E>

  /** Requests sent and items yielded from the opening of stream `n` on. */
  function BroadcastFrom<Msg, Turn, Update, E>(
      c: Conversion<Msg, Turn, Update>, open: Opener<Msg, Update, E>, conversation: seq<Msg>, n: nat)
      : Broadcast<Msg, Update, E>
    requires n <= MAX_CONTINUATIONS
    decreases MAX_CONTINUATIONS - n, 1
  {
    match open(n, conversation)
    case Err(e) => Broadcast([conversation], [], [Err(e)])
    case Ok(stream) =>
      var rest := AfterStream(c, open, conversation, stream.updates, stream.end, false, n);
      Broadcast([conversation] + rest.requests, [stream] + rest.streams, Updates(stream.updates) + rest.items)
  }

  /** What follows once the stream with these updates ends. */
  function AfterStream<Msg, Turn, Update, E>(
      c: Conversion<Msg, Turn, Update>, open: Opener<Msg, Update, E>, conversation: seq<Msg>,
      updates: seq<Update>, end: End<E>, flagged: bool, n: nat): Broadcast<Msg, Update, E>
    requires n <= MAX_CONTINUATIONS
    decreases MAX_CONTINUATIONS - n, 0
  {
    match end
    case Broken(e) => Broadcast([], [], [Err(e)])
    case Exhausted(paused) =>
      var turn := c.fromUpdates(updates);
      if Continues(c, turn, flagged || paused, n)
      then BroadcastFrom(c, open, conversation + c.messages(turn), n + 1)
      else Broadcast([], [], [])
  }

  /** The state that forwards a stream and opens the next one when it ends paused. */
  class PausedStream<Msg, Turn, Update, E> {
    const c: Conversion<Msg, Turn, Update>
    const open: Opener<Msg, Update, E>
    var conversation: seq<Msg>
    var inner: Stream<Update, E>
    var collected: seq<Update>
    var paused: bool
    var continuation: nat
    var done: bool

    predicate Valid()
      reads this
    {
      continuation <= MAX_CONTINUATIONS
    }

    /** The items still to come and the requests still to be sent. */
    function Rest(): Broadcast<Msg, Update, E>
      requires Valid()
      reads this
    {
      if done then Broadcast([], [], [])
      else RestOf(c, open, conversation, inner, collected, paused, continuation)
    }

    constructor (c: Conversion<Msg, Turn, Update>, open: Opener<Msg, Update, E>, messages: seq<Msg>, first: Stream<Update, E>)
      requires open(0, messages) == Ok(first)
      ensures Valid() && this.c == c && this.open == open
      ensures var all := BroadcastFrom(c, open, messages, 0);
              Rest().items == all.items && [messages] + Rest().requests == all.requests
    {
      this.c, this.open := c, open;
      conversation, inner := messages, first;
      collected, paused, continuation, done := [], false, 0, false;
      new;
      assert collected + inner.updates == first.updates;
    }

    /** Polls the inner stream: its next update, its error, or its end, by when any pause is flagged. */
    method PollInner() returns (item: Option<Item<Update, E>>)
      modifies this`inner, this`paused
      ensures inner.end == old(inner.end)
      ensures old(inner.updates) != [] ==>
                item == Some(Ok(old(inner.updates)[0])) && inner.updates == old(inner.updates)[1..] && paused == old(paused)
      ensures old(inner.updates) == [] ==> inner.updates == []
      ensures old(inner.updates) == [] && inner.end.Broken? ==> item == Some(Err(inner.end.error)) && paused == old(paused)
      ensures old(inner.updates) == [] && inner.end.Exhausted? ==> item == None && paused == (old(paused) || inner.end.paused)
    {
      if inner.updates != [] {
        item := Some(Ok(inner.updates[0]));
        inner := inner.(updates := inner.updates[1..]);
      } else {
        match inner.end
        case Broken(e) => item := Some(Err(e));
        case Exhausted(flag) =>
          paused := paused || flag;
          item := None;
      }
    }

    /** One poll: the next item still to come, or nothing once there is none. */
    method Next() returns (item: Option<Item<Update, E>>, ghost sent: seq<seq<Msg>>)
      requires Valid()
      modifies this
      ensures Valid()
      ensures sent + Rest().requests == old(Rest().requests)
      ensures item.None? ==> old(Rest().items) == [] && Rest().requests == []
      ensures item.Some? ==> [item.value] + Rest().items == old(Rest().items)
    {
      hide RestOf, Continuation, Yielding, Updates;
      sent := [];
      item := None;
      ghost var whole := Rest();
      while item.None? && !done
        invariant Valid()
        invariant Yields(item) + Rest().items == whole.items
        invariant sent + Rest().requests == whole.requests
        decreases item.None? && !done, MAX_CONTINUATIONS - continuation
      {
        ghost var before := sent;
        ghost var more;
        item, more := PollOnce();
        sent := before + more;
        assert before + more + Rest().requests == before + (more + Rest().requests);
      }
    }

    /** One turn of the loop in `Next`: an item of the inner stream, or what its end brings. */
    method PollOnce() returns (item: Option<Item<Update, E>>, ghost sent: seq<seq<Msg>>)
      requires Valid() && !done
      modifies this
      ensures Valid()
      ensures item.None? && !done ==> continuation == old(continuation) + 1
      ensures Yields(item) + Rest().items == old(Rest().items)
      ensures sent + Rest().requests == old(Rest().requests)
    {
      hide RestOf, Continuation, Yielding, Updates;
      sent := [];
      RestStep(c, open, conversation, inner, collected, paused, continuation);
      item := PollInner();
      match item
      case Some(Ok(update)) =>
        collected := collected + [update];
        YieldingParts(update, Rest());
      case Some(Err(_)) =>
        done := true;
      case None =>
        var error;
        error, sent := OnExhausted();
        item := if error.Some? then Some(Err(error.value)) else None;
    }

    /** The inner stream has ended: opens the next one if the turn continues. */
    method OnExhausted() returns (error: Option<E>, ghost sent: seq<seq<Msg>>)
      requires Valid() && !done
      modifies this
      ensures Valid()
      ensures !done ==> error.None? && continuation == old(continuation) + 1
      ensures var left := Continuation(c, open, old(conversation), old(collected), old(paused), old(continuation));
              && sent + Rest().requests == left.requests
              && (if error.Some? then [Err(error.value)] else []) + Rest().items == left.items
    {
      hide RestOf;
      sent := [];
      error := None;
      var wasPaused := paused;
      paused := false;
      // Ending the stream here drops the state, which `done` stands for.
      if !wasPaused || continuation >= MAX_CONTINUATIONS {
        done := true;
        return;
      }
      var turn := c.fromUpdates(collected);
      collected := [];
      if !AllReplayable(c, turn) {
        done := true;
        return;
      }
      conversation := conversation + c.messages(turn);
      continuation := continuation + 1;
      sent := [conversation];
      var reply := open(continuation, conversation);
      match reply
      case Ok(next) => inner := next;
      case Err(e) =>
        done := true;
        error := Some(e);
    }
  }

  /** Polls a stream to its end. */
  method Drain<Msg, Turn, Update, E>(stream: PausedStream<Msg, Turn, Update, E>)
      returns (items: seq<Item<Update, E>>, ghost sent: seq<seq<Msg>>)
    requires stream.Valid()
    modifies stream
    ensures items == old(stream.Rest().items) && sent == old(stream.Rest().requests)
  {
    hide *;
    items, sent := [], [];
    ghost var whole := stream.Rest();
    assert [] + whole.items == whole.items && [] + whole.requests == whole.requests;
    while true
      invariant stream.Valid()
      invariant items + stream.Rest().items == whole.items
      invariant sent + stream.Rest().requests == whole.requests
      decreases |stream.Rest().items|
    {
      ghost var left := stream.Rest();
      var item, more := stream.Next();
      assert sent + more + stream.Rest().requests == sent + left.requests;
      sent := sent + more;
      if item.None? {
        assert items + left.items == items && sent + stream.Rest().requests == sent;
        return;
      }
      items := items + [item.value];
    }
  }

  /** The items still to come and the requests still to be sent, from a stream's state. */
  function RestOf<Msg, Turn, Update, E>(
      c: Conversion<Msg, Turn, Update>, open: Opener<Msg, Update, E>, conversation: seq<Msg>,
      inner: Stream<Update, E>, collected: seq<Update>, flagged: bool, n: nat): Broadcast<Msg, Update, E>
    requires n <= MAX_CONTINUATIONS
  {
    var rest := AfterStream(c, open, conversation, collected + inner.updates, inner.end, flagged, n);
    rest.(items := Updates(inner.updates) + rest.items)
  }

  function Yielding<Msg, Update, E>(update: Update, rest: Broadcast<Msg, Update, E>): Broadcast<Msg, Update, E> {
    rest.(items := [Ok(update)] + rest.items)
  }

  function Yields<T>(item: Option<T>): seq<T> {
    if item.Some? then [item.value] else []
  }

  lemma YieldingParts<Msg, Update, E>(update: Update, rest: Broadcast<Msg, Update, E>)
    ensures Yielding(update, rest).items == [Ok(update)] + rest.items && Yielding(update, rest).requests == rest.requests
  {
  }

  /** What is left once the inner stream is exhausted. */
  function Continuation<Msg, Turn, Update, E>(
      c: Conversion<Msg, Turn, Update>, open: Opener<Msg, Update, E>, conversation: seq<Msg>,
      collected: seq<Update>, paused: bool, n: nat): Broadcast<Msg, Update, E>
    requires n <= MAX_CONTINUATIONS
  {
    var turn := c.fromUpdates(collected);
    if !Continues(c, turn, paused, n) then Broadcast([], [], [])
    else
      var continued := conversation + c.messages(turn);
      match open(n + 1, continued)
      case Err(e) => Broadcast([continued], [], [Err(e)])
      case Ok(stream) =>
        var rest := RestOf(c, open, continued, stream, [], false, n + 1);
        Broadcast([continued] + rest.requests, [stream] + rest.streams, rest.items)
  }

  /** What one poll of the inner stream makes of the items still to come. */
  lemma RestStep<Msg, Turn, Update, E>(
      c: Conversion<Msg, Turn, Update>, open: Opener<Msg, Update, E>, conversation: seq<Msg>,
      inner: Stream<Update, E>, collected: seq<Update>, flagged: bool, n: nat)
    requires n <= MAX_CONTINUATIONS
    ensures RestOf(c, open, conversation, inner, collected, flagged, n) ==
            if inner.updates != [] then
              Yielding(inner.updates[0], RestOf(c, open, conversation, inner.(updates := inner.updates[1..]),
                                                collected + [inner.updates[0]], flagged, n))
            else
              match inner.end
              case Broken(e) => Broadcast([], [], [Err(e)])
              case Exhausted(paused) => Continuation(c, open, conversation, collected, flagged || paused, n)
  {
    if inner.updates != [] {
      assert collected + inner.updates == collected + [inner.updates[0]] + inner.updates[1..];
      assert Updates<Update, E>(inner.updates) == [Ok(inner.updates[0])] + Updates(inner.updates[1..]);
    } else {
      assert collected + inner.updates == collected;
      NoUpdates(AfterStream(c, open, conversation, collected, inner.end, flagged, n).items);
      if inner.end.Exhausted? {
        ContinuationIs(c, open, conversation, collected, inner.end.paused, flagged, n);
      }
    }
  }

  lemma ContinuationIs<Msg, Turn, Update, E>(
      c: Conversion<Msg, Turn, Update>, open: Opener<Msg, Update, E>, conversation: seq<Msg>,
      collected: seq<Update>, paused: bool, flagged: bool, n: nat)
    requires n <= MAX_CONTINUATIONS
    ensures AfterStream(c, open, conversation, collected, Exhausted(paused), flagged, n)
         == Continuation(c, open, conversation, collected, flagged || paused, n)
  {
    var turn := c.fromUpdates(collected);
    if Continues(c, turn, flagged || paused, n) {
      var continued := conversation + c.messages(turn);
      match open(n + 1, continued)
      case Err(_) =>
      case Ok(stream) =>
        assert [] + stream.updates == stream.updates;
    }
  }

  lemma NoUpdates<Update, E>(items: seq<Item<Update, E>>)
    ensures Updates([]) + items == items
  {
  }

  // --- both forms follow one protocol --------------------------------------------

  /** A streamed answer carries the same turn as a whole one. */
  ghost predicate SameAnswer<Msg, Turn, Update, E>(
      c: Conversion<Msg, Turn, Update>, reply: Reply<Turn, E>, streamed: Result<Stream<Update, E>, E>) {
    match reply
    case Failed(e) => streamed == Err(e) || (streamed.Ok? && streamed.value.end == Broken(e))
    case Answered(turn, paused) =>
      && streamed.Ok? && streamed.value.end == Exhausted(paused)
      && c.messages(c.fromUpdates(streamed.value.updates)) == c.messages(turn)
  }

  /** Given the same server, both forms send the same conversations in the same order. */
  lemma {:induction false} SameRequests<Msg(!new), Turn, Update, E>(
      c: Conversion<Msg, Turn, Update>, send: (nat, seq<Msg>) -> Reply<Turn, E>, open: Opener<Msg, Update, E>,
      conversation: seq<Msg>, n: nat)
    requires n <= MAX_CONTINUATIONS
    requires forall k: nat, m: seq<Msg> :: SameAnswer(c, send(k, m), open(k, m))
    ensures BroadcastFrom(c, open, conversation, n).requests == ExchangeFrom(c, send, conversation, n).requests
    decreases MAX_CONTINUATIONS - n
  {
    assert SameAnswer(c, send(n, conversation), open(n, conversation));
    match send(n, conversation)
    case Failed(_) =>
    case Answered(turn, paused) =>
      if Continues(c, turn, paused, n) {
        SameRequests(c, send, open, conversation + c.messages(turn), n + 1);
      }
  }

  /**
   The requests of one call: the first is the conversation, each next one appends the turn
   just paused, and the call goes on exactly while the turn is paused, replayable and
   under the limit.
   */
  lemma {:induction false} RequestsFollowRule<Msg, Turn, Update, E>(
      c: Conversion<Msg, Turn, Update>, send: (nat, seq<Msg>) -> Reply<Turn, E>, conversation: seq<Msg>, n: nat)
    requires n <= MAX_CONTINUATIONS
    ensures var x := ExchangeFrom(c, send, conversation, n);
            && 1 <= |x.requests| <= 11 - n
            && x.requests[0] == conversation
            && |x.turns| == |x.requests| - (if x.failure.Some? then 1 else 0)
            && (forall i :: 0 <= i < |x.requests| ==> RequestFollows(c, send, x, n, i))
    decreases MAX_CONTINUATIONS - n
  {
    hide ExchangeFrom;
    ExchangeStep(c, send, conversation, n);
    var x := ExchangeFrom(c, send, conversation, n);
    match send(n, conversation)
    case Failed(_) =>
    case Answered(turn, paused) =>
      if Continues(c, turn, paused, n) {
        var rest := ExchangeFrom(c, send, conversation + c.messages(turn), n + 1);
        RequestsFollowRule(c, send, conversation + c.messages(turn), n + 1);
        forall i | 0 <= i < |x.requests|
          ensures RequestFollows(c, send, x, n, i)
        {
          if i > 0 {
            assert RequestFollows(c, send, rest, n + 1, i - 1);
          }
        }
      }
  }

  function Concat<T>(lists: seq<seq<T>>): seq<T> {
    if lists == [] then [] else lists[0] + Concat(lists[1..])
  }

  function Views<Turn, T>(view: Turn -> seq<T>, turns: seq<Turn>): seq<seq<T>> {
    seq(|turns|, i requires 0 <= i < |turns| => view(turns[i]))
  }

  lemma {:induction false} MergedInOrder<Msg, Turn, Update, T>(
      c: Conversion<Msg, Turn, Update>, view: Turn -> seq<T>, acc: Turn, turns: seq<Turn>)
    requires forall a, b :: view(c.merge(a, b)) == view(a) + view(b)
    ensures view(MergeAll(c, acc, turns)) == view(acc) + Concat(Views(view, turns))
    decreases |turns|
  {
    if turns == [] {
      assert view(acc) + [] == view(acc);
    } else {
      MergedInOrder(c, view, c.merge(acc, turns[0]), turns[1..]);
      assert Views(view, turns)[1..] == Views(view, turns[1..]);
      assert view(acc) + (view(turns[0]) + Concat(Views(view, turns[1..])))
          == view(acc) + view(turns[0]) + Concat(Views(view, turns[1..]));
    }
  }

  /** Whatever merging appends, the result of a call holds of all its turns, in their order; an error is the result. */
  lemma ResultHoldsAll<Msg, Turn, Update, E, T>(
      c: Conversion<Msg, Turn, Update>, send: (nat, seq<Msg>) -> Reply<Turn, E>, conversation: seq<Msg>, view: Turn -> seq<T>)
    requires forall a, b :: view(c.merge(a, b)) == view(a) + view(b)
    ensures var x := ExchangeFrom(c, send, conversation, 0);
            match Outcome(c, x)
            case Ok(turn) => x.failure.None? && view(turn) == Concat(Views(view, x.turns))
            case Err(e) => x.failure == Some(e)
  {
    hide ExchangeFrom, MergeAll;
    var x := ExchangeFrom(c, send, conversation, 0);
    if x.failure.None? {
      MergedInOrder(c, view, x.turns[0], x.turns[1..]);
      assert Views(view, x.turns)[1..] == Views(view, x.turns[1..]);
    }
  }

  /** A server that always pauses on a replayable turn gets exactly eleven requests. */
  lemma {:induction false} AlwaysPausing<Msg, Turn, Update, E>(
      c: Conversion<Msg, Turn, Update>, send: (nat, seq<Msg>) -> Reply<Turn, E>, conversation: seq<Msg>, n: nat)
    requires n <= 10
    requires forall k: nat, m: seq<Msg> :: IsReplayablePause(c, send(k, m))
    ensures |ExchangeFrom(c, send, conversation, n).requests| == 11 - n
    decreases 10 - n
  {
    assert IsReplayablePause(c, send(n, conversation));
    if n < 10 {
      AlwaysPausing(c, send, conversation + c.messages(send(n, conversation).turn), n + 1);
    }
  }

  predicate IsReplayablePause<Msg, Turn, Update, E>(c: Conversion<Msg, Turn, Update>, reply: Reply<Turn, E>) {
    reply.Answered? && reply.paused && forall k :: 0 <= k < |c.messages(reply.turn)| ==> c.replayable(c.messages(reply.turn)[k])
  }

  /** What request `i` of an exchange numbered from `n` brought, and whether another follows. */
  ghost predicate RequestFollows<Msg, Turn, Update, E>(
      c: Conversion<Msg, Turn, Update>, send: (nat, seq<Msg>) -> Reply<Turn, E>, x: Exchange<Msg, Turn, E>, n: nat, i: nat)
    requires i < |x.requests| && |x.turns| == |x.requests| - (if x.failure.Some? then 1 else 0)
  {
    match send(n + i, x.requests[i])
    case Failed(e) => i == |x.requests| - 1 && x.failure == Some(e)
    case Answered(turn, paused) =>
      && i < |x.turns|
      && x.turns[i] == turn
      && (i + 1 < |x.requests| <==>
            paused && n + i < 10 && forall k :: 0 <= k < |c.messages(turn)| ==> c.replayable(c.messages(turn)[k]))
      && (i + 1 < |x.requests| ==> x.requests[i + 1] == x.requests[i] + c.messages(turn))
  }

  /** Every stream's updates, in the order the streams were opened. */
  function AllUpdates<Update, E>(streams: seq<Stream<Update, E>>): seq<Item<Update, E>> {
    if streams == [] then [] else Updates(streams[0].updates) + AllUpdates(streams[1..])
  }

  /** The error that ended a broadcast, from its last stream or its last opening. */
  function FinalError<Msg, Turn, Update, E>(
      c: Conversion<Msg, Turn, Update>, open: Opener<Msg, Update, E>, b: Broadcast<Msg, Update, E>, n: nat): Option<E>
  {
    if b.requests == [] then None
    else
      match open(n + |b.requests| - 1, b.requests[|b.requests| - 1])
      case Err(e) => Some(e)
      case Ok(Stream(_, Broken(e))) => Some(e)
      case Ok(_) => None
  }

  /**
   A stream yields every update of every stream it opened, in order, and then the first
   error, if there is one, as its last item; no stream but the last ended otherwise than
   paused.
   */
  lemma {:induction false} BroadcastItems<Msg, Turn, Update, E>(
      c: Conversion<Msg, Turn, Update>, open: Opener<Msg, Update, E>, conversation: seq<Msg>, n: nat)
    requires n <= MAX_CONTINUATIONS
    ensures var b := BroadcastFrom(c, open, conversation, n);
            && b.requests != []
            && b.items == AllUpdates(b.streams)
                          + (match FinalError(c, open, b, n) case None => [] case Some(e) => [Err(e)])
            && (forall i :: 0 <= i < |b.streams| - 1 ==> b.streams[i].end == Exhausted(true))
    decreases MAX_CONTINUATIONS - n
  {
    var b := BroadcastFrom(c, open, conversation, n);
    match open(n, conversation)
    case Err(e) => assert b.items == AllUpdates(b.streams) + [Err(e)];
    case Ok(stream) =>
      var turn := c.fromUpdates(stream.updates);
      if stream.end.Exhausted? && Continues(c, turn, stream.end.paused, n) {
        var continued := conversation + c.messages(turn);
        BroadcastItems(c, open, continued, n + 1);
        hide BroadcastFrom, AfterStream, AllUpdates, FinalError;
        BroadcastContinues(c, open, conversation, n);
        AllUpdatesStep(stream, BroadcastFrom(c, open, continued, n + 1).streams);
      } else {
        AllUpdatesStep(stream, []);
        assert AllUpdates<Update, E>([]) == [];
      }
  }

  lemma AllUpdatesStep<Update, E>(stream: Stream<Update, E>, rest: seq<Stream<Update, E>>)
    ensures AllUpdates([stream] + rest) == Updates(stream.updates) + AllUpdates(rest)
  {
    assert ([stream] + rest)[1..] == rest;
  }

  lemma BroadcastContinues<Msg, Turn, Update, E>(
      c: Conversion<Msg, Turn, Update>, open: Opener<Msg, Update, E>, conversation: seq<Msg>, n: nat)
    requires n <= MAX_CONTINUATIONS && open(n, conversation).Ok? && open(n, conversation).value.end.Exhausted?
    requires var stream := open(n, conversation).value;
             Continues(c, c.fromUpdates(stream.updates), stream.end.paused, n)
    ensures var stream := open(n, conversation).value;
            var rest := BroadcastFrom(c, open, conversation + c.messages(c.fromUpdates(stream.updates)), n + 1);
            var b := BroadcastFrom(c, open, conversation, n);
            && b == Broadcast([conversation] + rest.requests, [stream] + rest.streams, Updates(stream.updates) + rest.items)
            && rest.requests != []
            && FinalError(c, open, b, n) == FinalError(c, open, rest, n + 1)
  {
    var stream := open(n, conversation).value;
    var rest := BroadcastFrom(c, open, conversation + c.messages(c.fromUpdates(stream.updates)), n + 1);
    var b := BroadcastFrom(c, open, conversation, n);
    assert AfterStream(c, open, conversation, stream.updates, stream.end, false, n) == rest;
    assert rest.requests != [];
    assert b.requests == [conversation] + rest.requests;
    assert b.requests[|b.requests| - 1] == rest.requests[|rest.requests| - 1];
    assert n + |b.requests| - 1 == n + 1 + |rest.requests| - 1;
  }
}
