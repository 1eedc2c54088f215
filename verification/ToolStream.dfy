/** ToolStream (stream.go) as a protocol: any number of Send calls, the drain
    goroutine, context cancellation and one closer, interleaved at every
    channel operation, atomic access and sender call. `accepted` and
    `delivered` record what was enqueued and what reached the client. */
module ToolStream {

  /** One enqueued chunk, tagged with the Send call it came from. */
  datatype Item = Item(id: nat, data: string)
  datatype Delivery = Delivery(number: nat, item: Item)

  datatype SendResult = Accepted | StreamClosed | ContextDone | BadContent
  /** A Send is past its closed check, waiting in its select, or has ended. */
  datatype SendPc = Selecting(data: string) | Ended(result: SendResult)

  /** What a goroutine inside sendProgressChunk carries: a received chunk, then
      the same chunk with its sequence number assigned. */
  datatype Hand = Empty | Held(item: Item) | Numbered(item: Item, number: nat)

  /** DrainLeft: drain has seen the buffer empty and will not look again, but
      has not closed done yet. */
  datatype DrainPc = DrainLoop | DrainFlush | DrainLeft | DrainExited
  datatype ClosePc = NotClosing | FlagSet | AwaitDone | CtxSeen | CloseFlush | Returned(flushed: bool)

  datatype State = State(
    cap: nat,
    closed: bool, quit: bool, cancelled: bool,
    counter: nat,
    buffer: seq<Item>,
    sends: map<nat, SendPc>,
    drain: DrainPc, drainHand: Hand,
    close: ClosePc, closeHand: Hand,
    accepted: seq<Item>,
    delivered: seq<Delivery>)

  datatype SendEvent = SendStart(data: string, wellFormed: bool) | SendEnqueue | SendSeesQuit | SendSeesCtx
  datatype DrainEvent = DrainTake | DrainNumber | DrainDeliver | DrainSeesQuit | DrainSeesCtx | DrainLeave | DrainDone
  datatype CloseEvent = CloseFlag | CloseQuit | CloseSeesDone | CloseSeesCtx | CloseCtxDone | CloseGivesUp
                      | CloseTake | CloseNumber | CloseDeliver | CloseReturn

  datatype Action = Send(id: nat, s: SendEvent) | Drain(d: DrainEvent) | Close(c: CloseEvent) | Cancel

  /** newToolStream: a non-positive buffer size becomes 16. */
  function Init(bufSize: int): State {
    State(if bufSize <= 0 then 16 else bufSize, false, false, false, 0, [], map[],
          DrainLoop, Empty, NotClosing, Empty, [], [])
  }

  predicate Waiting(s: State, id: nat) { id in s.sends && s.sends[id].Selecting? }

  predicate Reading(d: DrainPc) { d == DrainLoop || d == DrainFlush }

  predicate SendEnabled(s: State, id: nat, e: SendEvent) {
    match e
    case SendStart(_, _) => id !in s.sends
    case SendEnqueue => Waiting(s, id) && |s.buffer| < s.cap
    case SendSeesQuit => Waiting(s, id) && s.quit
    case SendSeesCtx => Waiting(s, id) && s.cancelled
  }

  function SendStep(s: State, id: nat, e: SendEvent): State
    requires SendEnabled(s, id, e)
  {
    match e
    case SendStart(data, wellFormed) =>
      s.(sends := s.sends[id :=
        if s.closed then Ended(StreamClosed)
        else if !wellFormed then Ended(BadContent) else Selecting(data)])
    case SendEnqueue =>
      var item := Item(id, s.sends[id].data);
      s.(buffer := s.buffer + [item], accepted := s.accepted + [item], sends := s.sends[id := Ended(Accepted)])
    case SendSeesQuit => s.(sends := s.sends[id := Ended(StreamClosed)])
    case SendSeesCtx => s.(sends := s.sends[id := Ended(ContextDone)])
  }

  predicate DrainEnabled(s: State, e: DrainEvent) {
    match e
    case DrainTake => Reading(s.drain) && s.drainHand.Empty? && s.buffer != []
    case DrainNumber => s.drainHand.Held?
    case DrainDeliver => s.drainHand.Numbered?
    case DrainSeesQuit => s.drain == DrainLoop && s.drainHand.Empty? && s.quit
    case DrainSeesCtx => s.drain == DrainLoop && s.drainHand.Empty? && s.cancelled
    case DrainLeave => s.drain == DrainFlush && s.drainHand.Empty? && s.buffer == []
    case DrainDone => s.drain == DrainLeft
  }

  function DrainStep(s: State, e: DrainEvent): State
    requires DrainEnabled(s, e)
  {
    match e
    case DrainTake => s.(drainHand := Held(s.buffer[0]), buffer := s.buffer[1..])
    case DrainNumber => s.(counter := s.counter + 1, drainHand := Numbered(s.drainHand.item, s.counter + 1))
    case DrainDeliver =>
      s.(delivered := s.delivered + [Delivery(s.drainHand.number, s.drainHand.item)], drainHand := Empty)
    case DrainSeesQuit => s.(drain := DrainFlush)
    case DrainSeesCtx => s.(drain := DrainFlush)
    case DrainLeave => s.(drain := DrainLeft)
    case DrainDone => s.(drain := DrainExited)
  }

  predicate CloseEnabled(s: State, e: CloseEvent) {
    match e
    case CloseFlag => s.close == NotClosing
    case CloseQuit => s.close == FlagSet
    case CloseSeesDone => s.close == AwaitDone && s.drain == DrainExited
    case CloseSeesCtx => s.close == AwaitDone && s.cancelled
    case CloseCtxDone => s.close == CtxSeen && s.drain == DrainExited
    case CloseGivesUp => s.close == CtxSeen && s.drain != DrainExited
    case CloseTake => s.close == CloseFlush && s.closeHand.Empty? && s.buffer != []
    case CloseNumber => s.closeHand.Held?
    case CloseDeliver => s.closeHand.Numbered?
    case CloseReturn => s.close == CloseFlush && s.closeHand.Empty? && s.buffer == []
  }

  function CloseStep(s: State, e: CloseEvent): State
    requires CloseEnabled(s, e)
  {
    match e
    case CloseFlag => s.(closed := true, close := FlagSet)
    case CloseQuit => s.(quit := true, close := AwaitDone)
    case CloseSeesDone => s.(close := CloseFlush)
    case CloseSeesCtx => s.(close := CtxSeen)
    case CloseCtxDone => s.(close := CloseFlush)
    case CloseGivesUp => s.(close := Returned(false))
    case CloseTake => s.(closeHand := Held(s.buffer[0]), buffer := s.buffer[1..])
    case CloseNumber => s.(counter := s.counter + 1, closeHand := Numbered(s.closeHand.item, s.counter + 1))
    case CloseDeliver =>
      s.(delivered := s.delivered + [Delivery(s.closeHand.number, s.closeHand.item)], closeHand := Empty)
    case CloseReturn => s.(close := Returned(true))
  }

  predicate Enabled(s: State, a: Action) {
    match a
    case Send(id, e) => SendEnabled(s, id, e)
    case Drain(e) => DrainEnabled(s, e)
    case Close(e) => CloseEnabled(s, e)
    case Cancel => true
  }

  function Apply(s: State, a: Action): State
    requires Enabled(s, a)
  {
    match a
    case Send(id, e) => SendStep(s, id, e)
    case Drain(e) => DrainStep(s, e)
    case Close(e) => CloseStep(s, e)
    case Cancel => s.(cancelled := true)
  }

  /** s reaches t by exactly these actions. */
  ghost predicate Runs(s: State, acts: seq<Action>, t: State)
    decreases |acts|
  {
    if acts == [] then s == t
    else Enabled(s, acts[0]) && Runs(Apply(s, acts[0]), acts[1..], t)
  }

  // -------------------------------------------------------------- invariant

  function Carried(h: Hand): seq<Item> { if h.Empty? then [] else [h.item] }

  function Items(ds: seq<Delivery>): seq<Item> { seq(|ds|, i requires 0 <= i < |ds| => ds[i].item) }

  /** Accepted chunks are delivered, then in hand, then buffered, in FIFO order. */
  ghost predicate Conserved(accepted: seq<Item>, delivered: seq<Delivery>, drainHand: Hand, closeHand: Hand, buffer: seq<Item>) {
    accepted == Items(delivered) + Carried(drainHand) + Carried(closeHand) + buffer
  }

  /** Sequence numbers are 1, 2, 3, ... without gap or repeat. */
  ghost predicate NumberedFromOne(delivered: seq<Delivery>) {
    forall i :: 0 <= i < |delivered| ==> delivered[i].number == i + 1
  }

  /** The counter is the last number delivered, or the one in a hand. */
  ghost predicate CounterOk(counter: nat, n: nat, drainHand: Hand, closeHand: Hand) {
    && (drainHand.Numbered? ==> drainHand.number == counter == n + 1)
    && (closeHand.Numbered? ==> closeHand.number == counter == n + 1)
    && (!drainHand.Numbered? && !closeHand.Numbered? ==> counter == n)
  }

  /** Drain and the closer's flush never overlap. */
  ghost predicate Exclusive(drain: DrainPc, drainHand: Hand, close: ClosePc, closeHand: Hand) {
    && (close == CloseFlush || close == Returned(true) || !closeHand.Empty? ==> drain == DrainExited)
    && (!Reading(drain) ==> drainHand.Empty?)
    && (!closeHand.Empty? ==> close == CloseFlush)
  }

  ghost predicate FlagsOk(closed: bool, quit: bool, close: ClosePc) {
    && (closed <==> close != NotClosing)
    && (quit <==> close != NotClosing && close != FlagSet)
  }

  /** A Send reports success exactly for the chunk it enqueued, once. */
  ghost predicate AcceptedExactly(sends: map<nat, SendPc>, accepted: seq<Item>) {
    && (forall id :: id in sends && sends[id] == Ended(Accepted) <==> IdIn(accepted, id))
    && (forall i, j :: 0 <= i < j < |accepted| ==> accepted[i].id != accepted[j].id)
  }

  ghost predicate IdIn(items: seq<Item>, id: nat) { exists i :: 0 <= i < |items| && items[i].id == id }

  ghost predicate Inv(s: State) {
    && 1 <= s.cap && |s.buffer| <= s.cap
    && Conserved(s.accepted, s.delivered, s.drainHand, s.closeHand, s.buffer)
    && NumberedFromOne(s.delivered) && CounterOk(s.counter, |s.delivered|, s.drainHand, s.closeHand)
    && Exclusive(s.drain, s.drainHand, s.close, s.closeHand) && FlagsOk(s.closed, s.quit, s.close)
    && AcceptedExactly(s.sends, s.accepted)
  }

  lemma ItemsPush(ds: seq<Delivery>, d: Delivery)
    ensures Items(ds + [d]) == Items(ds) + [d.item]
  {}

  /** A chunk moves from the hand to the client. */
  lemma DeliverConserves(accepted: seq<Item>, delivered: seq<Delivery>, h: Hand, buffer: seq<Item>)
    requires h.Numbered? && accepted == Items(delivered) + [h.item] + buffer
    ensures accepted == Items(delivered + [Delivery(h.number, h.item)]) + buffer
  {
    ItemsPush(delivered, Delivery(h.number, h.item));
  }

  /** A chunk moves from the buffer to the empty hand. */
  lemma TakeConserves(accepted: seq<Item>, delivered: seq<Delivery>, buffer: seq<Item>)
    requires buffer != [] && accepted == Items(delivered) + buffer
    ensures accepted == Items(delivered) + [buffer[0]] + buffer[1..]
  {
    assert buffer == [buffer[0]] + buffer[1..];
  }

  /** With one hand empty the other is in the middle. */
  lemma ConservedIs(accepted: seq<Item>, delivered: seq<Delivery>, drainHand: Hand, closeHand: Hand, buffer: seq<Item>)
    requires drainHand.Empty? || closeHand.Empty?
    ensures Conserved(accepted, delivered, drainHand, closeHand, buffer) <==>
      accepted == Items(delivered) + (if drainHand.Empty? then Carried(closeHand) else Carried(drainHand)) + buffer
  {
    assert Items(delivered) + Carried(drainHand) + Carried(closeHand)
        == Items(delivered) + if drainHand.Empty? then Carried(closeHand) else Carried(drainHand);
  }

  lemma DrainConserves(s: State, e: DrainEvent)
    requires Inv(s) && DrainEnabled(s, e)
    ensures var t := DrainStep(s, e); Conserved(t.accepted, t.delivered, t.drainHand, t.closeHand, t.buffer)
  {
    var t := DrainStep(s, e);
    if e.DrainTake? || e.DrainNumber? || e.DrainDeliver? {
      assert s.closeHand.Empty?;
      ConservedIs(s.accepted, s.delivered, s.drainHand, s.closeHand, s.buffer);
      ConservedIs(t.accepted, t.delivered, t.drainHand, t.closeHand, t.buffer);
      if e.DrainTake? {
        assert Items(s.delivered) + [] == Items(s.delivered);
        TakeConserves(s.accepted, s.delivered, s.buffer);
      } else if e.DrainDeliver? {
        DeliverConserves(s.accepted, s.delivered, s.drainHand, s.buffer);
        assert Items(t.delivered) + [] == Items(t.delivered);
      }
    }
  }

  lemma CloseConserves(s: State, e: CloseEvent)
    requires Inv(s) && CloseEnabled(s, e)
    ensures var t := CloseStep(s, e); Conserved(t.accepted, t.delivered, t.drainHand, t.closeHand, t.buffer)
  {
    var t := CloseStep(s, e);
    if e.CloseTake? || e.CloseNumber? || e.CloseDeliver? {
      assert s.drainHand.Empty?;
      ConservedIs(s.accepted, s.delivered, s.drainHand, s.closeHand, s.buffer);
      ConservedIs(t.accepted, t.delivered, t.drainHand, t.closeHand, t.buffer);
      if e.CloseTake? {
        assert Items(s.delivered) + [] == Items(s.delivered);
        TakeConserves(s.accepted, s.delivered, s.buffer);
      } else if e.CloseDeliver? {
        DeliverConserves(s.accepted, s.delivered, s.closeHand, s.buffer);
        assert Items(t.delivered) + [] == Items(t.delivered);
      }
    }
  }

  lemma DrainKeepsInv(s: State, e: DrainEvent)
    requires Inv(s) && DrainEnabled(s, e)
    ensures Inv(DrainStep(s, e))
  {
    DrainConserves(s, e);
  }

  lemma CloseKeepsInv(s: State, e: CloseEvent)
    requires Inv(s) && CloseEnabled(s, e)
    ensures Inv(CloseStep(s, e))
  {
    CloseConserves(s, e);
  }

  lemma IdInPush(items: seq<Item>, item: Item, id: nat)
    ensures IdIn(items + [item], id) <==> IdIn(items, id) || item.id == id
  {
    var all := items + [item];
    assert all[|items|] == item;
    if IdIn(items, id) {
      var i :| 0 <= i < |items| && items[i].id == id;
      assert all[i].id == id;
    }
  }

  lemma EnqueueAccepts(sends: map<nat, SendPc>, accepted: seq<Item>, item: Item)
    requires AcceptedExactly(sends, accepted) && item.id in sends && sends[item.id].Selecting?
    ensures AcceptedExactly(sends[item.id := Ended(Accepted)], accepted + [item])
  {
    var later := sends[item.id := Ended(Accepted)];
    forall id ensures id in later && later[id] == Ended(Accepted) <==> IdIn(accepted + [item], id) {
      IdInPush(accepted, item, id);
    }
    assert !IdIn(accepted, item.id);
  }

  lemma OtherEndAccepts(sends: map<nat, SendPc>, accepted: seq<Item>, id: nat, pc: SendPc)
    requires AcceptedExactly(sends, accepted) && (id in sends ==> sends[id].Selecting?) && pc != Ended(Accepted)
    ensures AcceptedExactly(sends[id := pc], accepted)
  {}

  lemma SendKeepsInv(s: State, id: nat, e: SendEvent)
    requires Inv(s) && SendEnabled(s, id, e)
    ensures Inv(SendStep(s, id, e))
  {
    var t := SendStep(s, id, e);
    if e.SendEnqueue? {
      EnqueueAccepts(s.sends, s.accepted, Item(id, s.sends[id].data));
    } else {
      OtherEndAccepts(s.sends, s.accepted, id, t.sends[id]);
    }
  }

  lemma StepKeepsInv(s: State, a: Action)
    requires Inv(s) && Enabled(s, a)
    ensures Inv(Apply(s, a))
  {
    match a
    case Send(id, e) => SendKeepsInv(s, id, e);
    case Drain(e) => DrainKeepsInv(s, e);
    case Close(e) => CloseKeepsInv(s, e);
    case Cancel =>
  }

  /** Every interleaving keeps FIFO conservation, gapless numbering, mutual
      exclusion of drain and flush, and truthful Send results. */
  lemma {:induction false} RunsKeepInv(s: State, acts: seq<Action>, t: State)
    requires Inv(s) && Runs(s, acts, t)
    ensures Inv(t)
    decreases |acts|
  {
    if acts != [] {
      StepKeepsInv(s, acts[0]);
      RunsKeepInv(Apply(s, acts[0]), acts[1..], t);
    }
  }

  lemma EveryRunIsSafe(bufSize: int, acts: seq<Action>, t: State)
    requires Runs(Init(bufSize), acts, t)
    ensures Conserved(t.accepted, t.delivered, t.drainHand, t.closeHand, t.buffer)
    ensures NumberedFromOne(t.delivered) && Exclusive(t.drain, t.drainHand, t.close, t.closeHand)
    ensures AcceptedExactly(t.sends, t.accepted) && |t.buffer| <= if bufSize > 0 then bufSize else 16
    ensures t.counter - 1 <= |t.delivered| <= t.counter
  {
    RunsKeepInv(Init(bufSize), acts, t);
    CapKept(Init(bufSize), acts, t);
  }

  lemma {:induction false} CapKept(s: State, acts: seq<Action>, t: State)
    requires Runs(s, acts, t)
    ensures t.cap == s.cap
    decreases |acts|
  {
    if acts != [] { CapKept(Apply(s, acts[0]), acts[1..], t); }
  }

  // --------------------------------------------------------- what was asked for

  /** This Send was called with this well-formed content. */
  ghost predicate Asked(done: seq<Action>, id: nat, data: string) { Send(id, SendStart(data, true)) in done }

  /** Why a Send has ended as it did, from the actions so far. */
  ghost predicate Explained(done: seq<Action>, id: nat, pc: SendPc) {
    match pc
    case Selecting(data) => Asked(done, id, data)
    case Ended(Accepted) => Send(id, SendEnqueue) in done
    case Ended(StreamClosed) => Close(CloseFlag) in done
    case Ended(ContextDone) => Cancel in done
    case Ended(BadContent) => exists data :: Send(id, SendStart(data, false)) in done
  }

  ghost predicate AllExplained(done: seq<Action>, sends: map<nat, SendPc>) {
    forall id :: id in sends ==> Explained(done, id, sends[id])
  }

  ghost predicate AllAsked(done: seq<Action>, items: seq<Item>) {
    forall i :: 0 <= i < |items| ==> Asked(done, items[i].id, items[i].data)
  }

  ghost predicate FlagsExplained(done: seq<Action>, s: State) {
    (s.closed ==> Close(CloseFlag) in done) && (s.quit ==> s.closed) && (s.cancelled ==> Cancel in done)
  }

  /** The state holds nothing that was not asked for. */
  ghost predicate Told(done: seq<Action>, s: State) {
    FlagsExplained(done, s) && AllExplained(done, s.sends) && AllAsked(done, s.accepted)
  }

  lemma MoreExplains(done: seq<Action>, a: Action, s: State)
    requires Told(done, s)
    ensures Told(done + [a], s)
  {
    forall id | id in s.sends ensures Explained(done + [a], id, s.sends[id]) {
      assert Explained(done, id, s.sends[id]);
    }
  }

  lemma SendTold(done: seq<Action>, s: State, id: nat, e: SendEvent)
    requires Told(done, s) && SendEnabled(s, id, e) && Send(id, e) in done
    ensures Told(done, SendStep(s, id, e))
  {
    var t := SendStep(s, id, e);
    assert id in s.sends ==> Explained(done, id, s.sends[id]);
    forall x | x in t.sends ensures Explained(done, x, t.sends[x]) {
      if x != id { assert Explained(done, x, s.sends[x]); }
    }
  }

  lemma StepTold(done: seq<Action>, s: State, a: Action)
    requires Told(done, s) && FlagsOk(s.closed, s.quit, s.close) && Enabled(s, a)
    ensures Told(done + [a], Apply(s, a))
  {
    MoreExplains(done, a, s);
    if a.Send? { SendTold(done + [a], s, a.id, a.s); }
  }

  lemma {:induction false} RunsTold(done: seq<Action>, s: State, acts: seq<Action>, t: State)
    requires Inv(s) && Told(done, s) && Runs(s, acts, t)
    ensures Told(done + acts, t)
    decreases |acts|
  {
    if acts == [] {
      assert done + acts == done;
    } else {
      StepTold(done, s, acts[0]);
      StepKeepsInv(s, acts[0]);
      RunsTold(done + [acts[0]], Apply(s, acts[0]), acts[1..], t);
      assert done + [acts[0]] + acts[1..] == done + acts;
    }
  }

  /** In every run every chunk that was accepted, and every one that reached the
      client, carries exactly the content its Send was called with, and every
      Send result has its cause among the actions. */
  lemma ContentIsKept(bufSize: int, acts: seq<Action>, t: State)
    requires Runs(Init(bufSize), acts, t)
    ensures forall i :: 0 <= i < |t.accepted| ==> Send(t.accepted[i].id, SendStart(t.accepted[i].data, true)) in acts
    ensures forall i :: 0 <= i < |t.delivered| ==>
      Send(t.delivered[i].item.id, SendStart(t.delivered[i].item.data, true)) in acts
    ensures forall id :: id in t.sends ==> Explained(acts, id, t.sends[id])
  {
    RunsTold([], Init(bufSize), acts, t);
    assert [] + acts == acts;
    RunsKeepInv(Init(bufSize), acts, t);
    forall i | 0 <= i < |t.accepted| ensures Send(t.accepted[i].id, SendStart(t.accepted[i].data, true)) in acts {
      assert Asked(acts, t.accepted[i].id, t.accepted[i].data);
    }
    forall i | 0 <= i < |t.delivered| ensures Send(t.delivered[i].item.id, SendStart(t.delivered[i].item.data, true)) in acts {
      assert Items(t.delivered)[i] == t.delivered[i].item == t.accepted[i];
      assert Asked(acts, t.accepted[i].id, t.accepted[i].data);
    }
  }

  // ------------------------------------------------------------- completion

  /** Send calls past their closed check. */
  function Pending(s: State): set<nat> { set id | id in s.sends && s.sends[id].Selecting? }

  /** close has returned and drain will not look again: nobody reads the buffer. */
  ghost predicate Unread(s: State) { s.close.Returned? && !Reading(s.drain) }

  lemma UnreadSplit(s: State)
    requires Inv(s) && Unread(s)
    ensures s.accepted == Items(s.delivered) + s.buffer
    ensures s.accepted == Items(s.delivered) <==> s.buffer == []
  {
    assert s.drainHand.Empty? && s.closeHand.Empty?;
  }

  lemma DrainLeaveDeliversAll(s: State)
    requires Inv(s) && Enabled(s, Drain(DrainLeave))
    ensures Items(Apply(s, Drain(DrainLeave)).delivered) == s.accepted
  {
    assert s.closeHand.Empty?;
  }

  lemma CloseReturnDeliversAll(s: State)
    requires Inv(s) && Enabled(s, Close(CloseReturn))
    ensures var t := Apply(s, Close(CloseReturn));
      Inv(t) && Unread(t) && t.buffer == [] && Items(t.delivered) == t.accepted
  {
    CloseKeepsInv(s, CloseReturn);
    UnreadSplit(Apply(s, Close(CloseReturn)));
  }

  lemma SendPending(s: State, id: nat, e: SendEvent)
    requires SendEnabled(s, id, e) && s.closed
    ensures var t := SendStep(s, id, e);
      if e.SendStart? then Pending(t) == Pending(s) && t.buffer == s.buffer
      else id in Pending(s) && Pending(t) == Pending(s) - {id} && |t.buffer| <= |s.buffer| + 1
  {}

  lemma UnreadStep(s: State, a: Action)
    requires Inv(s) && Unread(s) && Enabled(s, a)
    ensures var t := Apply(s, a);
      && Inv(t) && Unread(t) && t.delivered == s.delivered && Pending(t) <= Pending(s)
      && |t.buffer| + |Pending(t)| <= |s.buffer| + |Pending(s)|
  {
    StepKeepsInv(s, a);
    if a.Send? {
      SendPending(s, a.id, a.s);
    } else {
      assert Pending(Apply(s, a)) == Pending(s);
    }
  }

  /** Once unread, nothing is delivered any more, and what is buffered or
      undecided never grows. */
  lemma {:induction false} UnreadRun(s: State, acts: seq<Action>, t: State)
    requires Inv(s) && Unread(s) && Runs(s, acts, t)
    ensures Inv(t) && Unread(t) && t.delivered == s.delivered
    ensures |t.buffer| + |Pending(t)| <= |s.buffer| + |Pending(s)|
    decreases |acts|
  {
    if acts != [] {
      UnreadStep(s, acts[0]);
      UnreadRun(Apply(s, acts[0]), acts[1..], t);
    }
  }

  /** The residual window is exactly the Sends past their closed check at the
      closer's last look: nothing more can ever be lost. */
  lemma LossBoundedByPending(s: State, acts: seq<Action>, t: State)
    requires Inv(s) && Enabled(s, Close(CloseReturn))
    requires Runs(Apply(s, Close(CloseReturn)), acts, t)
    ensures |t.accepted| - |t.delivered| <= |Pending(s)|
    ensures Items(t.delivered) == s.accepted
  {
    CloseReturnDeliversAll(s);
    var r := Apply(s, Close(CloseReturn));
    UnreadRun(r, acts, t);
    UnreadSplit(t);
    assert Pending(r) == Pending(s);
  }

  /** In every continuation, once nobody reads the buffer any more, what was
      accepted has been delivered. */
  ghost predicate NothingEverLost(r: State) {
    forall acts, t :: Runs(r, acts, t) && Unread(t) ==> t.accepted == Items(t.delivered)
  }

  lemma OneStep(s: State, a: Action)
    requires Enabled(s, a)
    ensures Runs(s, [a], Apply(s, a))
  {
    assert [a][1..] == [];
  }

  /** A pending Send can still enqueue into an empty unread buffer. */
  lemma EnqueueIsLost(r: State, id: nat)
    requires Inv(r) && Unread(r) && r.buffer == [] && id in Pending(r)
    ensures Enabled(r, Send(id, SendEnqueue))
    ensures var t := Apply(r, Send(id, SendEnqueue)); Unread(t) && t.accepted != Items(t.delivered)
  {
    StepKeepsInv(r, Send(id, SendEnqueue));
    UnreadSplit(Apply(r, Send(id, SendEnqueue)));
  }

  /** Everything accepted is delivered for good if and only if no Send is past
      its closed check at the closer's last look. */
  lemma DeliveredForGoodIff(s: State)
    requires Inv(s) && Enabled(s, Close(CloseReturn))
    ensures NothingEverLost(Apply(s, Close(CloseReturn))) <==> Pending(s) == {}
  {
    var r := Apply(s, Close(CloseReturn));
    CloseReturnDeliversAll(s);
    assert Pending(r) == Pending(s);
    if Pending(s) == {} {
      forall acts, t | Runs(r, acts, t) ensures t.accepted == Items(t.delivered) {
        UnreadRun(r, acts, t);
        UnreadSplit(t);
      }
    } else {
      var id :| id in Pending(s);
      EnqueueIsLost(r, id);
      OneStep(r, Send(id, SendEnqueue));
    }
  }

  // ------------------------------------------------------------ giving up early

  /** close gave up, no Send is undecided, and a drain that has stopped looking
      left nothing behind. */
  ghost predicate NothingToLose(s: State) {
    Inv(s) && s.close == Returned(false) && Pending(s) == {} && (!Reading(s.drain) ==> s.buffer == [])
  }

  lemma NothingToLoseStep(s: State, a: Action)
    requires NothingToLose(s) && Enabled(s, a)
    ensures NothingToLose(Apply(s, a))
  {
    StepKeepsInv(s, a);
    if a.Send? {
      SendPending(s, a.id, a.s);
    } else {
      assert Pending(Apply(s, a)) == Pending(s);
    }
  }

  lemma {:induction false} NothingToLoseRun(s: State, acts: seq<Action>, t: State)
    requires NothingToLose(s) && Runs(s, acts, t)
    ensures NothingToLose(t)
    decreases |acts|
  {
    if acts != [] {
      NothingToLoseStep(s, acts[0]);
      NothingToLoseRun(Apply(s, acts[0]), acts[1..], t);
    }
  }

  /** Work left for drain before it stops looking. */
  function DrainWork(s: State): nat {
    3 * |s.buffer| + (match s.drainHand case Empty => 0 case Held(_) => 2 case Numbered(_, _) => 1)
    + if s.drain == DrainLoop then 1 else 0
  }

  function NextOfDrain(s: State): DrainEvent {
    match s.drainHand
    case Held(_) => DrainNumber
    case Numbered(_, _) => DrainDeliver
    case Empty => if s.buffer != [] then DrainTake else if s.drain == DrainLoop then DrainSeesQuit else DrainLeave
  }

  lemma Cons(s: State, a: Action, acts: seq<Action>, t: State)
    requires Enabled(s, a) && Runs(Apply(s, a), acts, t)
    ensures Runs(s, [a] + acts, t)
  {
    assert ([a] + acts)[1..] == acts;
  }

  /** After quit drain can run on its own until it stops looking. */
  lemma {:induction false} DrainFinishes(s: State) returns (acts: seq<Action>, t: State)
    requires Inv(s) && s.quit && Reading(s.drain)
    ensures Runs(s, acts, t) && Inv(t) && t.drain == DrainLeft && t.buffer == []
    ensures t.sends == s.sends && t.close == s.close
    decreases DrainWork(s)
  {
    var e := NextOfDrain(s);
    var u := Apply(s, Drain(e));
    DrainKeepsInv(s, e);
    if e.DrainLeave? {
      acts, t := [], u;
    } else {
      acts, t := DrainFinishes(u);
    }
    Cons(s, Drain(e), acts, t);
    acts := [Drain(e)] + acts;
  }

  lemma {:induction false} RunsConcat(s: State, a: seq<Action>, u: State, b: seq<Action>, t: State)
    requires Runs(s, a, u) && Runs(u, b, t)
    ensures Runs(s, a + b, t)
    decreases |a|
  {
    if a == [] {
      assert a + b == b;
    } else {
      RunsConcat(Apply(s, a[0]), a[1..], u, b, t);
      assert (a + b)[1..] == a[1..] + b;
    }
  }

  /** A pending Send can wait until drain stops looking, and enqueue then. */
  lemma PendingMayBeLost(r: State, id: nat)
    requires Inv(r) && r.close == Returned(false) && id in Pending(r) && (!Reading(r.drain) ==> r.buffer == [])
    ensures !NothingEverLost(r)
  {
    var acts, u := [], r;
    if Reading(r.drain) { acts, u := DrainFinishes(r); }
    assert id in Pending(u);
    EnqueueIsLost(u, id);
    OneStep(u, Send(id, SendEnqueue));
    RunsConcat(r, acts, u, [Send(id, SendEnqueue)], Apply(u, Send(id, SendEnqueue)));
  }

  /** When close gives up because the context is done, everything accepted is
      still delivered once drain finishes if and only if no Send is past its
      closed check, and drain had not already stopped looking at a buffer that
      is no longer empty. */
  lemma GiveUpDeliversIff(s: State)
    requires Inv(s) && Enabled(s, Close(CloseGivesUp))
    ensures NothingEverLost(Apply(s, Close(CloseGivesUp))) <==>
      Pending(s) == {} && (s.drain == DrainLeft ==> s.buffer == [])
  {
    var r := Apply(s, Close(CloseGivesUp));
    CloseKeepsInv(s, CloseGivesUp);
    assert Pending(r) == Pending(s);
    if s.drain == DrainLeft && s.buffer != [] {
      UnreadSplit(r);
      assert Runs(r, [], r);
    } else if Pending(s) != {} {
      var id :| id in Pending(s);
      PendingMayBeLost(r, id);
    } else {
      forall acts, t | Runs(r, acts, t) && Unread(t) ensures t.accepted == Items(t.delivered) {
        NothingToLoseRun(r, acts, t);
        UnreadSplit(t);
      }
    }
  }

  // -------------------------------------------------- a chunk lost by giving up

  ghost predicate Reachable(bufSize: int, t: State) { exists acts :: Runs(Init(bufSize), acts, t) }

  lemma ReachStep(bufSize: int, s: State, a: Action)
    requires Reachable(bufSize, s) && Enabled(s, a)
    ensures Reachable(bufSize, Apply(s, a))
  {
    var acts :| Runs(Init(bufSize), acts, s);
    OneStep(s, a);
    RunsConcat(Init(bufSize), acts, s, [a], Apply(s, a));
  }

  /** The context ends, drain looks at the empty buffer and leaves, and a Send
      is accepted before drain closes done. */
  lemma AcceptedTooLate(bufSize: int) returns (s: State)
    ensures Reachable(bufSize, s) && s.cancelled && s.drain == DrainLeft && s.close == NotClosing
    ensures s.buffer != [] && Pending(s) == {}
  {
    s := Init(bufSize);
    assert Runs(s, [], s);
    ReachStep(bufSize, s, Cancel);
    s := Apply(s, Cancel);
    ReachStep(bufSize, s, Drain(DrainSeesCtx));
    s := Apply(s, Drain(DrainSeesCtx));
    ReachStep(bufSize, s, Drain(DrainLeave));
    s := Apply(s, Drain(DrainLeave));
    ReachStep(bufSize, s, Send(0, SendStart("x", true)));
    s := Apply(s, Send(0, SendStart("x", true)));
    ReachStep(bufSize, s, Send(0, SendEnqueue));
    s := Apply(s, Send(0, SendEnqueue));
  }

  lemma CloseUntilCtx(bufSize: int, s: State) returns (t: State)
    requires Reachable(bufSize, s) && s.cancelled && s.close == NotClosing
    ensures Reachable(bufSize, t) && t == s.(closed := true, quit := true, close := CtxSeen)
  {
    ReachStep(bufSize, s, Close(CloseFlag));
    t := Apply(s, Close(CloseFlag));
    ReachStep(bufSize, t, Close(CloseQuit));
    t := Apply(t, Close(CloseQuit));
    ReachStep(bufSize, t, Close(CloseSeesCtx));
    t := Apply(t, Close(CloseSeesCtx));
  }

  /** With every buffer size a run exists in which close gives up with no Send
      undecided and an accepted chunk is never delivered. */
  lemma GiveUpMayLoseAChunk(bufSize: int)
    ensures exists s :: Reachable(bufSize, s) && Enabled(s, Close(CloseGivesUp)) && Pending(s) == {}
                        && !NothingEverLost(Apply(s, Close(CloseGivesUp)))
  {
    var s := AcceptedTooLate(bufSize);
    var t := CloseUntilCtx(bufSize, s);
    assert Pending(t) == Pending(s);
    var acts :| Runs(Init(bufSize), acts, t);
    RunsKeepInv(Init(bufSize), acts, t);
    GiveUpDeliversIff(t);
  }
}
