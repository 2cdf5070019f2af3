/** One Bitstamp connection: buffer updates, fetch one snapshot, discard, replay, go live. */
module BitstampConnection {
  import opened Options
  import opened LobFilters
  import opened BitstampMessages
  import opened BitstampSpec
  import opened BitstampBook

  // How the REST request for the snapshot ends, if this message triggers it.
  datatype RestReply = RequestFailed | BadJson | Snapshot(data: BookData, us: Option<nat>)

  // A snapshot without a usable timestamp counts as timestamp zero.
  function SnapshotUs(rest: RestReply): nat
    requires rest.Snapshot?
  {
    if rest.us.Some? then rest.us.value else 0
  }

  datatype Input = Input(msg: Message, rest: RestReply)

  // A buffered message with no timestamp is kept: its age cannot be told.
  predicate IsNewer(msg: Message, snapshotUs: nat) {
    var us := MicrotimestampUs(msg);
    us.None? || us.value > snapshotUs
  }

  function MicrotimestampUs(msg: Message): Option<nat> {
    if msg.L2Update? then msg.us else None
  }

  function Newer(msgs: seq<Message>, snapshotUs: nat): (kept: seq<Message>) {
    if msgs == [] then []
    else if IsNewer(msgs[0], snapshotUs) then [msgs[0]] + Newer(msgs[1..], snapshotUs)
    else Newer(msgs[1..], snapshotUs)
  }

  datatype Conn = Conn(buffer: seq<Message>, confirmed: bool, attempted: bool, applied: bool, book: Book)

  const FRESH_CONN := Conn([], false, false, false, EMPTY_BOOK)

  ghost function Attempted(c: Conn, rest: RestReply, filter: Option<LobFilter>, depth: nat): Conn {
    match rest
    case Snapshot(data, us) =>
      var book := Processed(c.book, L2Snapshot(Some(data)), filter, depth);
      Conn([], c.confirmed, true, true, ProcessedAll(book, Newer(c.buffer, SnapshotUs(rest)), filter, depth))
    case _ => c.(attempted := true, applied := true)
  }

  ghost function Handled(c: Conn, input: Input, filter: Option<LobFilter>, depth: nat): Conn {
    if !c.applied then
      var c' := match input.msg
        case L2Update(_, _) => c.(buffer := c.buffer + [input.msg])
        case Event(true) => c.(confirmed := true)
        case _ => c;
      if c'.confirmed && !c'.attempted then Attempted(c', input.rest, filter, depth) else c'
    else if input.msg.L2Snapshot? || input.msg.L2Update? then
      c.(book := Processed(c.book, input.msg, filter, depth))
    else c
  }

  ghost function HandledAll(inputs: seq<Input>, filter: Option<LobFilter>, depth: nat): Conn {
    if inputs == [] then FRESH_CONN
    else Handled(HandledAll(inputs[..|inputs| - 1], filter, depth), inputs[|inputs| - 1], filter, depth)
  }

  class Connection {
    var buffer: seq<Message>
    var subscriptionConfirmed: bool
    var snapshotAttempted: bool
    var snapshotApplied: bool
    const book: OrderBook
    const filter: Option<LobFilter>

    constructor (filter: Option<LobFilter>, snapshotDepth: nat)
      ensures State() == FRESH_CONN
      ensures this.filter == filter && fresh(book) && book.snapshotDepth == snapshotDepth
    {
      book := new OrderBook(snapshotDepth);
      this.filter := filter;
      buffer := [];
      subscriptionConfirmed, snapshotAttempted, snapshotApplied := false, false, false;
    }

    ghost function State(): Conn
      reads this, book
    {
      Conn(buffer, subscriptionConfirmed, snapshotAttempted, snapshotApplied, book.State())
    }

    method Handle(input: Input)
      modifies this, book
      ensures State() == Handled(old(State()), input, filter, book.snapshotDepth)
    {
      if !snapshotApplied {
        match input.msg {
          case L2Update(_, _) => buffer := buffer + [input.msg];
          case Event(confirms) => if confirms { subscriptionConfirmed := true; }
          case _ =>
        }
        if subscriptionConfirmed && !snapshotApplied && !snapshotAttempted {
          snapshotAttempted := true;
          if input.rest.Snapshot? {
            Reconcile(input.rest.data, SnapshotUs(input.rest));
            snapshotApplied := true;
          }
          if !snapshotApplied {
            snapshotApplied := true;
          }
        }
      } else if input.msg.L2Snapshot? || input.msg.L2Update? {
        book.ProcessMsg(input.msg, filter);
      }
    }

    method Reconcile(data: BookData, snapshotUs: nat)
      modifies this`buffer, book
      ensures buffer == []
      ensures book.State()
           == ProcessedAll(Processed(old(book.State()), L2Snapshot(Some(data)), filter, book.snapshotDepth),
                           Newer(old(buffer), snapshotUs), filter, book.snapshotDepth)
    {
      book.ProcessMsg(L2Snapshot(Some(data)), filter);
      var keep := DiscardOlder(buffer, snapshotUs);
      buffer := [];
      Replay(keep);
    }

    static method DiscardOlder(buffer: seq<Message>, snapshotUs: nat) returns (keep: seq<Message>)
      ensures keep == Newer(buffer, snapshotUs)
    {
      keep := [];
      for i := 0 to |buffer|
        invariant keep + Newer(buffer[i..], snapshotUs) == Newer(buffer, snapshotUs)
      {
        assert buffer[i..][1..] == buffer[i + 1..];
        match MicrotimestampUs(buffer[i]) {
          case Some(us) => if us > snapshotUs { keep := keep + [buffer[i]]; }
          case None => keep := keep + [buffer[i]];
        }
      }
    }

    method Replay(keep: seq<Message>)
      modifies book
      ensures book.State() == ProcessedAll(old(book.State()), keep, filter, book.snapshotDepth)
    {
      for i := 0 to |keep|
        invariant book.State() == ProcessedAll(old(book.State()), keep[..i], filter, book.snapshotDepth)
      {
        assert keep[..i + 1][..i] == keep[..i];
        book.ProcessMsg(keep[i], filter);
      }
      assert keep[..|keep|] == keep;
    }

    // The read loop of a fresh connection.
    method Run(inputs: seq<Input>)
      requires State() == FRESH_CONN
      modifies this, book
      ensures State() == HandledAll(inputs, filter, book.snapshotDepth)
    {
      for i := 0 to |inputs|
        invariant State() == HandledAll(inputs[..i], filter, book.snapshotDepth)
      {
        assert inputs[..i + 1][..i] == inputs[..i];
        Handle(inputs[i]);
      }
      assert inputs[..|inputs|] == inputs;
    }
  }
}

/** Where every update of a connection ends up. */
module BitstampConservation {
  import opened Options
  import opened PriceLevels
  import opened LobFilters
  import opened BitstampMessages
  import opened BitstampSpec
  import opened BitstampConnection

  // ----- reference description, read off the inputs alone -----

  function Updates(inputs: seq<Input>): seq<Message> {
    if inputs == [] then []
    else
      var before, msg := Updates(inputs[..|inputs| - 1]), inputs[|inputs| - 1].msg;
      if msg.L2Update? then before + [msg] else before
  }

  // The live messages that reach the book: updates and snapshots.
  function BookMessages(inputs: seq<Input>): seq<Message> {
    if inputs == [] then []
    else
      var before, msg := BookMessages(inputs[..|inputs| - 1]), inputs[|inputs| - 1].msg;
      if msg.L2Update? || msg.L2Snapshot? then before + [msg] else before
  }

  predicate Confirms(input: Input) {
    input.msg == Event(true)
  }

  // Position of the first confirmation, or the number of inputs if there is none.
  function ConfirmedAt(inputs: seq<Input>): (i: nat)
    ensures i <= |inputs|
    ensures i < |inputs| ==> Confirms(inputs[i])
    ensures forall j :: 0 <= j < i ==> !Confirms(inputs[j])
  {
    if inputs == [] then 0
    else
      var front := inputs[..|inputs| - 1];
      var i := ConfirmedAt(front);
      if i < |front| || Confirms(inputs[|inputs| - 1]) then i else |inputs|
  }

  // What is still held in the buffer.
  function Held(inputs: seq<Input>): seq<Message> {
    var i := ConfirmedAt(inputs);
    if i < |inputs| && inputs[i].rest.Snapshot? then [] else Updates(inputs[..i])
  }

  // What the snapshot attempt gives the book: the snapshot and the buffered updates it does not cover.
  function Replayed(before: seq<Input>, rest: RestReply): seq<Message> {
    match rest
    case Snapshot(data, us) => [L2Snapshot(Some(data))] + Newer(Updates(before), SnapshotUs(rest))
    case _ => []
  }

  // What the book has been given, in order.
  function Given(inputs: seq<Input>): seq<Message> {
    var i := ConfirmedAt(inputs);
    if i == |inputs| then []
    else Replayed(inputs[..i], inputs[i].rest) + BookMessages(inputs[i + 1..])
  }

  // What was thrown away: buffered updates no newer than the snapshot.
  function Discarded(inputs: seq<Input>): seq<Message> {
    var i := ConfirmedAt(inputs);
    if i < |inputs| && inputs[i].rest.Snapshot? then Older(Updates(inputs[..i]), SnapshotUs(inputs[i].rest)) else []
  }

  function Older(msgs: seq<Message>, snapshotUs: nat): (stale: seq<Message>)
    ensures forall m :: m in stale ==> m.L2Update? && m.us.Some? && m.us.value <= snapshotUs
  {
    if msgs == [] then []
    else if IsNewer(msgs[0], snapshotUs) then Older(msgs[1..], snapshotUs)
    else [msgs[0]] + Older(msgs[1..], snapshotUs)
  }

  // ----- the connection does exactly that -----

  lemma {:induction false} ConfirmedAtStep(front: seq<Input>, last: Input)
    ensures ConfirmedAt(front + [last])
         == if ConfirmedAt(front) < |front| || Confirms(last) then ConfirmedAt(front) else |front| + 1
    ensures ConfirmedAt(front) < |front| ==> (front + [last])[..ConfirmedAt(front)] == front[..ConfirmedAt(front)]
    ensures ConfirmedAt(front) < |front| ==>
      BookMessages((front + [last])[ConfirmedAt(front) + 1..])
      == if last.msg.L2Update? || last.msg.L2Snapshot? then BookMessages(front[ConfirmedAt(front) + 1..]) + [last.msg]
         else BookMessages(front[ConfirmedAt(front) + 1..])
  {
    var all := front + [last];
    assert all[..|front|] == front;
    var i := ConfirmedAt(front);
    if i < |front| {
      var live := all[i + 1..];
      assert live[..|live| - 1] == front[i + 1..];
      assert live[|live| - 1] == last;
    }
  }

  // The state after any inputs: flags, buffer, and the book as the fold of what it was given.
  lemma {:induction false} ConnectionIsDetermined(inputs: seq<Input>, filter: Option<LobFilter>, depth: nat)
    ensures var tried := ConfirmedAt(inputs) < |inputs|;
      HandledAll(inputs, filter, depth)
      == Conn(Held(inputs), tried, tried, tried, ProcessedAll(EMPTY_BOOK, Given(inputs), filter, depth))
  {
    if inputs != [] {
      var front, last := inputs[..|inputs| - 1], inputs[|inputs| - 1];
      assert inputs == front + [last];
      ConnectionIsDetermined(front, filter, depth);
      ConfirmedAtStep(front, last);
      var i := ConfirmedAt(front);
      assert i == |front| ==> front[..i] == front;
      if i < |front| {
        LiveStep(front, last, filter, depth);
      } else if Confirms(last) {
        AttemptStep(front, last, filter, depth);
      } else {
        assert inputs[..|inputs|] == inputs;
      }
    }
  }

  lemma {:induction false} LiveStep(front: seq<Input>, last: Input, filter: Option<LobFilter>, depth: nat)
    requires ConfirmedAt(front) < |front|
    ensures Held(front + [last]) == Held(front)
    ensures ProcessedAll(EMPTY_BOOK, Given(front + [last]), filter, depth)
         == if last.msg.L2Update? || last.msg.L2Snapshot?
            then Processed(ProcessedAll(EMPTY_BOOK, Given(front), filter, depth), last.msg, filter, depth)
            else ProcessedAll(EMPTY_BOOK, Given(front), filter, depth)
  {
    var given := Given(front);
    GivenLive(front, last);
    if last.msg.L2Update? || last.msg.L2Snapshot? {
      assert (given + [last.msg])[..|given|] == given;
    }
  }

  lemma {:induction false} GivenLive(front: seq<Input>, last: Input)
    requires ConfirmedAt(front) < |front|
    ensures Held(front + [last]) == Held(front)
    ensures Given(front + [last])
         == if last.msg.L2Update? || last.msg.L2Snapshot? then Given(front) + [last.msg] else Given(front)
  {
    ConfirmedAtStep(front, last);
    var i := ConfirmedAt(front);
    assert (front + [last])[i] == front[i];
    var replayed, live := Replayed(front[..i], front[i].rest), BookMessages(front[i + 1..]);
    Associative(replayed, live, [last.msg]);
  }

  lemma {:induction false} AttemptStep(front: seq<Input>, last: Input, filter: Option<LobFilter>, depth: nat)
    requires ConfirmedAt(front) == |front| && Confirms(last)
    requires HandledAll(front, filter, depth) == Conn(Updates(front), false, false, false, EMPTY_BOOK)
    ensures HandledAll(front + [last], filter, depth)
         == Conn(Held(front + [last]), true, true, true, ProcessedAll(EMPTY_BOOK, Given(front + [last]), filter, depth))
  {
    var inputs := front + [last];
    ConfirmedAtStep(front, last);
    assert inputs[..|front|] == front;
    assert inputs[|front| + 1..] == [];
    if last.rest.Snapshot? {
      var snapshot, kept := [L2Snapshot(Some(last.rest.data))], Newer(Updates(front), SnapshotUs(last.rest));
      assert Given(inputs) == snapshot + kept;
      ProcessedAllAppend(EMPTY_BOOK, snapshot, kept, filter, depth);
      assert snapshot[..0] == [];
    }
  }

  // `all` is dealt out to the three places, and `given` keeps its order.
  ghost predicate Dealt<T>(all: seq<T>, held: seq<T>, discarded: seq<T>, given: seq<T>) {
    multiset(all) == multiset(held) + multiset(discarded) + multiset(given) && IsSubsequence(given, all)
  }

  // Every update received is in exactly one place: held, discarded, or given to the book once, in order.
  lemma {:induction false} UpdatesAreConserved(inputs: seq<Input>)
    ensures Dealt(Updates(inputs), Held(inputs), Discarded(inputs), OnlyUpdates(Given(inputs)))
  {
    var i := ConfirmedAt(inputs);
    if i == |inputs| {
      assert inputs[..i] == inputs;
    } else if inputs[i].rest.Snapshot? {
      ConservedOnSuccess(inputs);
    } else {
      ConservedOnFailure(inputs);
    }
  }

  lemma {:induction false} PlacesOnSuccess(inputs: seq<Input>, i: nat)
    requires i == ConfirmedAt(inputs) < |inputs| && inputs[i].rest.Snapshot?
    ensures var before, us, live := Updates(inputs[..i]), SnapshotUs(inputs[i].rest), Updates(inputs[i + 1..]);
      && Updates(inputs) == before + live
      && Held(inputs) == [] && Discarded(inputs) == Older(before, us)
      && OnlyUpdates(Given(inputs)) == Newer(before, us) + live
  {
    SplitUpdates(inputs, i);
    OnlyUpdatesOfGiven(inputs);
  }

  lemma {:induction false} ConservedOnSuccess(inputs: seq<Input>)
    requires ConfirmedAt(inputs) < |inputs| && inputs[ConfirmedAt(inputs)].rest.Snapshot?
    ensures Dealt(Updates(inputs), Held(inputs), Discarded(inputs), OnlyUpdates(Given(inputs)))
  {
    var i := ConfirmedAt(inputs);
    PlacesOnSuccess(inputs, i);
    PartedAndFollowed(Updates(inputs[..i]), SnapshotUs(inputs[i].rest), Updates(inputs[i + 1..]));
  }

  lemma {:induction false} ConservedOnFailure(inputs: seq<Input>)
    requires ConfirmedAt(inputs) < |inputs| && !inputs[ConfirmedAt(inputs)].rest.Snapshot?
    ensures Dealt(Updates(inputs), Held(inputs), Discarded(inputs), OnlyUpdates(Given(inputs)))
  {
    var i := ConfirmedAt(inputs);
    SplitUpdates(inputs, i);
    OnlyUpdatesOfGiven(inputs);
    HeldAndFollowed(Updates(inputs[..i]), Updates(inputs[i + 1..]));
    assert Held(inputs) == Updates(inputs[..i]) && Discarded(inputs) == [];
  }

  lemma {:induction false} HeldAndFollowed(before: seq<Message>, live: seq<Message>)
    ensures Dealt(before + live, before, [], live)
  {
    SubsequenceOfNothing(before);
    SubsequenceAppend([], before, live);
    assert [] + live == live;
  }

  lemma {:induction false} PartedAndFollowed(before: seq<Message>, us: nat, live: seq<Message>)
    ensures Dealt(before + live, [], Older(before, us), Newer(before, us) + live)
  {
    NewerOlder(before, us);
    NewerInOrder(before, us);
    SubsequenceAppend(Newer(before, us), before, live);
  }

  lemma {:induction false} OnlyUpdatesOfGiven(inputs: seq<Input>)
    requires ConfirmedAt(inputs) < |inputs|
    ensures var i := ConfirmedAt(inputs);
      var live := Updates(inputs[i + 1..]);
      OnlyUpdates(Given(inputs))
      == if inputs[i].rest.Snapshot? then Newer(Updates(inputs[..i]), SnapshotUs(inputs[i].rest)) + live else live
  {
    var i := ConfirmedAt(inputs);
    var before, live := inputs[..i], BookMessages(inputs[i + 1..]);
    OnlyUpdatesOfBookMessages(inputs[i + 1..]);
    if inputs[i].rest.Snapshot? {
      AllUpdates(before);
      NewerInOrder(Updates(before), SnapshotUs(inputs[i].rest));
      OnlyUpdatesAfterSnapshot(inputs[i].rest.data, Newer(Updates(before), SnapshotUs(inputs[i].rest)), live);
    } else {
      assert [] + live == live;
    }
  }

  lemma {:induction false} SplitUpdates(inputs: seq<Input>, i: nat)
    requires i < |inputs| && Confirms(inputs[i])
    ensures Updates(inputs) == Updates(inputs[..i]) + Updates(inputs[i + 1..])
  {
    var upTo, live := inputs[..i + 1], inputs[i + 1..];
    assert Updates(upTo) == Updates(inputs[..i]) by {
      assert upTo[..i] == inputs[..i];
      assert upTo[i] == inputs[i];
    }
    UpdatesAppend(upTo, live);
    assert upTo + live == inputs;
  }

  lemma {:induction false} OnlyUpdatesAfterSnapshot(data: BookData, kept: seq<Message>, live: seq<Message>)
    requires forall m :: m in kept ==> m.L2Update?
    ensures OnlyUpdates([L2Snapshot(Some(data))] + kept + live) == kept + OnlyUpdates(live)
  {
    var snapshot := L2Snapshot(Some(data));
    assert ([snapshot] + kept + live)[1..] == kept + live;
    OnlyUpdatesAppend(kept, live);
    OnlyUpdatesId(kept);
  }

  function OnlyUpdates(msgs: seq<Message>): seq<Message> {
    if msgs == [] then []
    else if msgs[0].L2Update? then [msgs[0]] + OnlyUpdates(msgs[1..])
    else OnlyUpdates(msgs[1..])
  }

  ghost predicate IsSubsequence<T>(a: seq<T>, b: seq<T>) {
    if a == [] then true
    else if b == [] then false
    else if a[0] == b[0] && IsSubsequence(a[1..], b[1..]) then true
    else IsSubsequence(a, b[1..])
  }

  lemma {:induction false} SubsequenceOfNothing<T>(b: seq<T>)
    ensures IsSubsequence([], b)
  {
  }

  lemma {:induction false} SubsequenceAppend<T>(a: seq<T>, b: seq<T>, c: seq<T>)
    requires IsSubsequence(a, b)
    ensures IsSubsequence(a + c, b + c)
    decreases |b|
  {
    if b == [] {
      SubsequenceSelf(c);
      assert a + c == c && b + c == c;
    } else {
      assert (b + c)[1..] == b[1..] + c;
      if a != [] && a[0] == b[0] && IsSubsequence(a[1..], b[1..]) {
        SubsequenceAppend(a[1..], b[1..], c);
        assert (a + c)[1..] == a[1..] + c;
      } else {
        SubsequenceAppend(a, b[1..], c);
      }
    }
  }

  lemma {:induction false} SubsequenceSelf<T>(c: seq<T>)
    ensures IsSubsequence(c, c)
  {
    if c != [] { SubsequenceSelf(c[1..]); }
  }

  lemma {:induction false} UpdatesAppend(a: seq<Input>, b: seq<Input>)
    ensures Updates(a + b) == Updates(a) + Updates(b)
  {
    if b == [] {
      assert a + b == a;
    } else {
      assert (a + b)[..|a + b| - 1] == a + b[..|b| - 1];
      UpdatesAppend(a, b[..|b| - 1]);
    }
  }

  lemma {:induction false} OnlyUpdatesAppend(a: seq<Message>, b: seq<Message>)
    ensures OnlyUpdates(a + b) == OnlyUpdates(a) + OnlyUpdates(b)
  {
    if a == [] {
      assert a + b == b;
    } else {
      assert (a + b)[1..] == a[1..] + b;
      OnlyUpdatesAppend(a[1..], b);
    }
  }

  lemma {:induction false} OnlyUpdatesId(msgs: seq<Message>)
    requires forall m :: m in msgs ==> m.L2Update?
    ensures OnlyUpdates(msgs) == msgs
  {
    if msgs != [] { OnlyUpdatesId(msgs[1..]); }
  }

  lemma {:induction false} OnlyUpdatesOfBookMessages(inputs: seq<Input>)
    ensures OnlyUpdates(BookMessages(inputs)) == Updates(inputs)
  {
    if inputs != [] {
      var front, last := inputs[..|inputs| - 1], inputs[|inputs| - 1];
      OnlyUpdatesOfBookMessages(front);
      OnlyUpdatesAppend(BookMessages(front), if last.msg.L2Update? || last.msg.L2Snapshot? then [last.msg] else []);
    }
  }

  lemma {:induction false} AllUpdates(inputs: seq<Input>)
    ensures forall m :: m in Updates(inputs) ==> m.L2Update?
  {
    if inputs != [] { AllUpdates(inputs[..|inputs| - 1]); }
  }

  lemma {:induction false} NewerAreNewer(msgs: seq<Message>, us: nat)
    ensures forall m :: m in Newer(msgs, us) ==> IsNewer(m, us)
  {
    if msgs != [] { NewerAreNewer(msgs[1..], us); }
  }

  // The snapshot's timestamp divides the buffer: nothing lost, nothing twice, each part on its own side.
  lemma {:induction false} SplitByTimestamp(msgs: seq<Message>, us: nat)
    ensures multiset(msgs) == multiset(Newer(msgs, us)) + multiset(Older(msgs, us))
    ensures forall m :: m in Newer(msgs, us) ==> MicrotimestampUs(m).None? || MicrotimestampUs(m).value > us
    ensures forall m :: m in Older(msgs, us) ==> MicrotimestampUs(m).Some? && MicrotimestampUs(m).value <= us
  {
    NewerOlder(msgs, us);
    NewerAreNewer(msgs, us);
  }

  lemma {:induction false} NewerOlder(msgs: seq<Message>, us: nat)
    ensures multiset(msgs) == multiset(Newer(msgs, us)) + multiset(Older(msgs, us))
  {
    if msgs != [] {
      var first, rest := [msgs[0]], msgs[1..];
      NewerOlder(rest, us);
      assert msgs == first + rest;
      if IsNewer(msgs[0], us) {
        assert Newer(msgs, us) == first + Newer(rest, us);
        assert Older(msgs, us) == Older(rest, us);
      } else {
        assert Newer(msgs, us) == Newer(rest, us);
        assert Older(msgs, us) == first + Older(rest, us);
      }
    }
  }

  lemma {:induction false} NewerInOrder(msgs: seq<Message>, us: nat)
    ensures IsSubsequence(Newer(msgs, us), msgs)
    ensures forall m :: m in Newer(msgs, us) ==> m in msgs
  {
    if msgs != [] {
      NewerInOrder(msgs[1..], us);
      if IsNewer(msgs[0], us) {
        assert Newer(msgs, us)[1..] == Newer(msgs[1..], us);
      } else {
        assert Newer(msgs, us) == Newer(msgs[1..], us);
      }
    }
  }

  // Of the updates buffered when the snapshot comes, exactly those no newer than it are discarded: no
  // later than its timestamp, or without one, at zero.
  lemma {:induction false} DiscardedExactlyWhen(inputs: seq<Input>, i: nat, data: BookData, us: Option<nat>, m: Message)
    requires i == ConfirmedAt(inputs) < |inputs| && inputs[i].rest == Snapshot(data, us)
    ensures m in Discarded(inputs)
       <==> m in Updates(inputs[..i]) && m.L2Update? && m.us.Some?
            && (if us.Some? then m.us.value <= us.value else m.us.value == 0)
    ensures m in Discarded(inputs) ==> m !in Replayed(inputs[..i], inputs[i].rest)
    ensures m in Updates(inputs[..i]) && m !in Discarded(inputs) ==> m in Replayed(inputs[..i], inputs[i].rest)
  {
    var buffered, t := Updates(inputs[..i]), SnapshotUs(inputs[i].rest);
    SplitByTimestamp(buffered, t);
    AllUpdates(inputs[..i]);
    assert m in buffered <==> m in Newer(buffered, t) || m in Older(buffered, t) by {
      assert m in buffered <==> m in multiset(buffered);
      assert m in Newer(buffered, t) <==> m in multiset(Newer(buffered, t));
      assert m in Older(buffered, t) <==> m in multiset(Older(buffered, t));
    }
  }

  lemma {:induction false} NextInput(front: seq<Input>, last: Input, filter: Option<LobFilter>, depth: nat)
    ensures HandledAll(front + [last], filter, depth) == Handled(HandledAll(front, filter, depth), last, filter, depth)
  {
    assert (front + [last])[..|front|] == front;
  }

  lemma {:induction false} NotConfirmed(front: seq<Input>, filter: Option<LobFilter>, depth: nat)
    requires forall i :: 0 <= i < |front| ==> front[i].msg != Event(true)
    ensures HandledAll(front, filter, depth) == Conn(Updates(front), false, false, false, EMPTY_BOOK)
  {
    ConnectionIsDetermined(front, filter, depth);
    assert ConfirmedAt(front) == |front|;
    assert front[..|front|] == front;
  }

  // Until the subscription is confirmed, updates are buffered in order and nothing else happens.
  lemma {:induction false} BufferedMessage(front: seq<Input>, last: Input, filter: Option<LobFilter>, depth: nat)
    requires forall i :: 0 <= i < |front| ==> front[i].msg != Event(true)
    requires last.msg != Event(true)
    ensures var before, after := HandledAll(front, filter, depth), HandledAll(front + [last], filter, depth);
      && after == before.(buffer := if last.msg.L2Update? then before.buffer + [last.msg] else before.buffer)
      && !before.confirmed && !before.attempted && !before.applied && before.book == EMPTY_BOOK
  {
    NextInput(front, last, filter, depth);
    NotConfirmed(front, filter, depth);
  }

  // Whether a buffered update is later than the reply, or of unknown age.
  predicate IsLater(m: Message, us: Option<nat>) {
    m.L2Update? ==> m.us.None? || (if us.Some? then m.us.value > us.value else m.us.value > 0)
  }

  // The confirmation makes the one attempt. With a snapshot, the book gets it and then, in order, exactly
  // the buffered updates that are later; without one, the buffer and the empty book stay as they are.
  lemma {:induction false} AttemptMessage(front: seq<Input>, last: Input, filter: Option<LobFilter>, depth: nat)
    returns (kept: seq<Message>)
    requires forall i :: 0 <= i < |front| ==> front[i].msg != Event(true)
    requires last.msg == Event(true)
    ensures var before, after := HandledAll(front, filter, depth), HandledAll(front + [last], filter, depth);
      match last.rest
      case Snapshot(data, us) =>
        && IsSubsequence(kept, before.buffer)
        && (forall m :: multiset(kept)[m] == if IsLater(m, us) then multiset(before.buffer)[m] else 0)
        && after == Conn([], true, true, true,
                         ProcessedAll(Processed(EMPTY_BOOK, L2Snapshot(Some(data)), filter, depth), kept, filter, depth))
      case _ => after == Conn(before.buffer, true, true, true, EMPTY_BOOK)
  {
    NextInput(front, last, filter, depth);
    NotConfirmed(front, filter, depth);
    kept := [];
    if last.rest.Snapshot? {
      var buffer, t := Updates(front), SnapshotUs(last.rest);
      kept := Newer(buffer, t);
      NewerInOrder(buffer, t);
      forall m ensures multiset(kept)[m] == if IsLater(m, last.rest.us) then multiset(buffer)[m] else 0 {
        KeptTimes(buffer, last.rest.us, t, m);
      }
    }
  }

  lemma {:induction false} KeptTimes(buffer: seq<Message>, us: Option<nat>, t: nat, m: Message)
    requires t == if us.Some? then us.value else 0
    ensures multiset(Newer(buffer, t))[m] == if IsLater(m, us) then multiset(buffer)[m] else 0
  {
    SplitByTimestamp(buffer, t);
    assert multiset(buffer)[m] == multiset(Newer(buffer, t))[m] + multiset(Older(buffer, t))[m];
    assert m in Older(buffer, t) <==> m in multiset(Older(buffer, t));
    assert m in Newer(buffer, t) <==> m in multiset(Newer(buffer, t));
  }

  // After the attempt every live update and snapshot goes straight to the book, and nothing else does.
  lemma {:induction false} LiveMessage(front: seq<Input>, last: Input, filter: Option<LobFilter>, depth: nat)
    requires exists i :: 0 <= i < |front| && front[i].msg == Event(true)
    ensures var before, after := HandledAll(front, filter, depth), HandledAll(front + [last], filter, depth);
      after == if last.msg.L2Update? || last.msg.L2Snapshot?
               then before.(book := Processed(before.book, last.msg, filter, depth)) else before
  {
    NextInput(front, last, filter, depth);
    ConnectionIsDetermined(front, filter, depth);
    assert ConfirmedAt(front) < |front| by {
      var i :| 0 <= i < |front| && front[i].msg == Event(true);
      assert Confirms(front[i]);
    }
  }

  // Whether handling this input issues the REST request.
  ghost predicate Requests(inputs: seq<Input>, i: nat, filter: Option<LobFilter>, depth: nat)
    requires i < |inputs|
  {
    !HandledAll(inputs[..i], filter, depth).attempted && HandledAll(inputs[..i + 1], filter, depth).attempted
  }

  // At most one snapshot attempt per connection, made on an empty book.
  lemma {:induction false} OneAttempt(inputs: seq<Input>, i: nat, j: nat, filter: Option<LobFilter>, depth: nat)
    requires i < |inputs| && j < |inputs|
    requires Requests(inputs, i, filter, depth)
    ensures i == ConfirmedAt(inputs)
    ensures HandledAll(inputs[..i], filter, depth).book == EMPTY_BOOK
    ensures Requests(inputs, j, filter, depth) ==> j == i
  {
    RequestPosition(inputs, i, filter, depth);
    if Requests(inputs, j, filter, depth) { RequestPosition(inputs, j, filter, depth); }
    ConnectionIsDetermined(inputs[..i], filter, depth);
  }

  lemma {:induction false} RequestPosition(inputs: seq<Input>, i: nat, filter: Option<LobFilter>, depth: nat)
    requires i < |inputs| && Requests(inputs, i, filter, depth)
    ensures i == ConfirmedAt(inputs)
  {
    ConnectionIsDetermined(inputs[..i], filter, depth);
    ConnectionIsDetermined(inputs[..i + 1], filter, depth);
    var upTo, before := inputs[..i + 1], inputs[..i];
    assert forall k :: 0 <= k < i ==> before[k] == inputs[k];
    assert Confirms(upTo[ConfirmedAt(upTo)]);
  }
}
