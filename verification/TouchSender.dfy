/**
 The PC side of the touch path: `Controller::sendRealTouch` with its queue of pending moves, and the packet senders
 of `RawInputDaemonSession`.  Every send ends by emitting `writesFlushed`, which synchronously calls
 `flushPendingTouchMoves`, which sends again: the functions below are as mutually recursive as the source.
 */
module TouchSender {
  import opened TouchWire

  /** Result of one `send` of a whole packet: sends are all or nothing. */
  datatype Outcome = Accepted | WouldBlock | Failed

  /** The network as an oracle: the outcome of the n-th attempt. */
  type Net = nat -> Outcome

  datatype Size = Size(width: int, height: int)

  /** A queued move.  `call` numbers the `sendRealTouch` call it comes from. */
  datatype PendingMove = PendingMove(slot: int, valid: bool, x: int, y: int, size: Size, call: nat)

  /** One packet handed to the socket, for which call, and whether it got through. */
  datatype Sent = Sent(pkt: Packet, call: nat, delivered: bool)

  /** `pending` is the queue in key order, `last` the frame size the session believes the daemon has. */
  datatype Link = Link(pending: seq<PendingMove>, last: Size, tries: nat, log: seq<Sent>)

  const MAX_RETRIES: nat := 20

  function StartLink(): Link { Link([], Size(-1, -1), 0, []) }

  // ---- the queue ----

  function ValidCount(ps: seq<PendingMove>): nat {
    if ps == [] then 0 else (if ps[0].valid then 1 else 0) + ValidCount(ps[1..])
  }

  /** Index of the first entry still to be sent. */
  function FirstValid(ps: seq<PendingMove>): (i: nat)
    ensures i <= |ps|
    ensures i < |ps| ==> ps[i].valid
  {
    if ps == [] then 0 else if ps[0].valid then 0 else 1 + FirstValid(ps[1..])
  }

  function Put(ps: seq<PendingMove>, p: PendingMove): seq<PendingMove> {
    if ps == [] || p.slot < ps[0].slot then [p] + ps
    else if p.slot == ps[0].slot then [p] + ps[1..]
    else [ps[0]] + Put(ps[1..], p)
  }

  function Remove(ps: seq<PendingMove>, slot: int): seq<PendingMove> {
    if ps == [] then []
    else if ps[0].slot == slot then ps[1..]
    else [ps[0]] + Remove(ps[1..], slot)
  }

  function Consumed(ps: seq<PendingMove>, i: nat): seq<PendingMove>
    requires i < |ps|
  {
    ps[i := ps[i].(valid := false)]
  }

  lemma {:induction false} ConsumedCount(ps: seq<PendingMove>, i: nat)
    requires i < |ps| && ps[i].valid
    ensures ValidCount(Consumed(ps, i)) == ValidCount(ps) - 1
  {
    if i > 0 {
      ConsumedCount(ps[1..], i - 1);
      assert Consumed(ps, i)[1..] == Consumed(ps[1..], i - 1);
    } else {
      assert Consumed(ps, 0)[1..] == ps[1..];
    }
  }

  // ---- sending ----

  /** The bounded retry: delivered or not, and the number of the next attempt. */
  function Attempt(net: Net, tries: nat, attempt: nat): (bool, nat)
    requires attempt <= MAX_RETRIES
    decreases MAX_RETRIES - attempt
  {
    match net(tries)
    case Accepted => (true, tries + 1)
    case Failed => (false, tries + 1)
    case WouldBlock => if attempt == MAX_RETRIES then (false, tries + 1) else Attempt(net, tries + 1, attempt + 1)
  }

  function NeedsFrame(size: Size, last: Size): bool { size != last && size.width > 0 && size.height > 0 }

  /** `sendPacket`: one attempt, then the flush. */
  function SendPacket(net: Net, l: Link, pkt: Packet, call: nat): (r: Link)
    ensures ValidCount(r.pending) <= ValidCount(l.pending)
    decreases ValidCount(l.pending), 1
  {
    Flush(net, l.(tries := l.tries + 1, log := l.log + [Sent(pkt, call, net(l.tries) == Accepted)]))
  }

  /** `sendPacketReliable`: up to 21 attempts, then the flush. */
  function SendPacketReliable(net: Net, l: Link, pkt: Packet, call: nat): (r: Link)
    ensures ValidCount(r.pending) <= ValidCount(l.pending)
    decreases ValidCount(l.pending), 1
  {
    var (delivered, tries) := Attempt(net, l.tries, 0);
    Flush(net, l.(tries := tries, log := l.log + [Sent(pkt, call, delivered)]))
  }

  /** `ensureFrameSize`: the size is recorded whether or not its packet got through. */
  function EnsureFrameSize(net: Net, l: Link, size: Size, call: nat): (r: Link)
    ensures ValidCount(r.pending) <= ValidCount(l.pending)
    decreases ValidCount(l.pending), 2
  {
    if NeedsFrame(size, l.last) then
      SendPacketReliable(net, l, FramePkt(size.width, size.height), call).(last := size)
    else l
  }

  function TouchMove(net: Net, l: Link, slot: int, x: int, y: int, size: Size, call: nat): (r: Link)
    ensures ValidCount(r.pending) <= ValidCount(l.pending)
    decreases ValidCount(l.pending), 3
  {
    SendPacket(net, EnsureFrameSize(net, l, size, call), MovePkt(slot, x, y), call)
  }

  /** `flushPendingTouchMoves`: the first valid entry is consumed and sent. */
  function Flush(net: Net, l: Link): (r: Link)
    ensures ValidCount(r.pending) <= ValidCount(l.pending)
    decreases ValidCount(l.pending), 0
  {
    var i := FirstValid(l.pending);
    if i == |l.pending| then l
    else
      ConsumedCount(l.pending, i);
      var p := l.pending[i];
      TouchMove(net, l.(pending := Consumed(l.pending, i)), p.slot, p.x, p.y, p.size, p.call)
  }

  function TouchDown(net: Net, l: Link, slot: int, trackId: int, x: int, y: int, size: Size, call: nat): Link {
    SendPacketReliable(net, EnsureFrameSize(net, l, size, call), DownPkt(slot, trackId, x, y), call)
  }

  function TouchUp(net: Net, l: Link, slot: int, call: nat): Link {
    SendPacketReliable(net, l, UpPkt(slot), call)
  }

  // ---- the controller ----

  datatype Action = ActionDown | ActionMove | ActionUp

  /** A `sendRealTouch` call over a running session.  `busy` is what `hasPendingWrites` answers if asked. */
  datatype Call = Call(slot: int, action: Action, x: int, y: int, size: Size, busy: bool)

  function DispatchOrQueue(net: Net, l: Link, c: Call, call: nat): Link {
    if !c.busy then TouchMove(net, l.(pending := Remove(l.pending, c.slot)), c.slot, c.x, c.y, c.size, call)
    else l.(pending := Put(l.pending, PendingMove(c.slot, true, c.x, c.y, c.size, call)))
  }

  function SendRealTouch(net: Net, l: Link, c: Call, call: nat): Link {
    match c.action
    case ActionDown => TouchDown(net, l, c.slot, c.slot + 1, c.x, c.y, c.size, call)
    case ActionMove => DispatchOrQueue(net, l, c, call)
    case ActionUp => TouchUp(net, l.(pending := Remove(l.pending, c.slot)), c.slot, call)
  }

  /** A whole run of calls. */
  function RunCalls(net: Net, cs: seq<Call>): Link
    decreases |cs|
  {
    if cs == [] then StartLink()
    else SendRealTouch(net, RunCalls(net, cs[..|cs| - 1]), cs[|cs| - 1], |cs| - 1)
  }

  // ---- the reliable send ----

  /** Attempts `tries .. n` fill the send buffer wait, and attempt `n` gets through. */
  ghost predicate GetsThroughAt(net: Net, tries: nat, n: nat) {
    tries <= n && net(n) == Accepted && forall m: nat :: tries <= m < n ==> net(m) == WouldBlock
  }

  /** A packet sent reliably gets through exactly when one of 21 consecutive attempts is accepted after nothing but full buffers. */
  lemma {:induction false} AttemptDelivers(net: Net, tries: nat, attempt: nat)
    requires attempt <= MAX_RETRIES
    ensures Attempt(net, tries, attempt).0
       <==> exists n: nat :: n <= tries + MAX_RETRIES - attempt && GetsThroughAt(net, tries, n)
    decreases MAX_RETRIES - attempt
  {
    if net(tries) == WouldBlock && attempt < MAX_RETRIES {
      AttemptDelivers(net, tries + 1, attempt + 1);
      if Attempt(net, tries + 1, attempt + 1).0 {
        var n: nat :| n <= tries + MAX_RETRIES - attempt && GetsThroughAt(net, tries + 1, n);
        assert GetsThroughAt(net, tries, n);
      }
      if n: nat :| n <= tries + MAX_RETRIES - attempt && GetsThroughAt(net, tries, n) {
        assert GetsThroughAt(net, tries + 1, n);
      }
    } else if net(tries) == Accepted {
      assert GetsThroughAt(net, tries, tries);
    }
  }

  /** It makes at most 21 attempts, and stops at the first one that does not find the buffer full. */
  lemma {:induction false} AttemptCounts(net: Net, tries: nat, attempt: nat)
    requires attempt <= 20
    ensures var (delivered, next) := Attempt(net, tries, attempt);
      && tries < next <= tries + 21 - attempt
      && (forall m: nat :: tries <= m < next - 1 ==> net(m) == WouldBlock)
      && (net(next - 1) == WouldBlock ==> next == tries + 21 - attempt)
      && delivered == (net(next - 1) == Accepted)
    decreases 20 - attempt
  {
    if net(tries) == WouldBlock && attempt < 20 {
      AttemptCounts(net, tries + 1, attempt + 1);
    } else {
      assert Attempt(net, tries, attempt).1 == tries + 1;
    }
  }
}
