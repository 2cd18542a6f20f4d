/** The channel of local-channel: a shared buffer, the receiver's waker, and reference counts. */
module LocalChannel {
  import opened LocalWake
  import opened Options

  datatype Poll<+T> = Pending | Ready(item: Option<T>)

  /** The shared part of a channel, with the number of references to it. The senders and the
      receiver are references; an operation of a sender requires that there is one. */
  class Channel<T> {
    var buffer: seq<T>
    var hasReceiver: bool
    const blockedRecv: LocalWaker
    var strongCount: nat

    /** Which references exist: so many senders, and perhaps the receiver. The operations do not
        look at these two fields, only at the count. */
    var senders: nat
    var receiverAlive: bool
    /** Everything ever accepted from senders, and handed to the receiver. */
    ghost var accepted: seq<T>
    ghost var received: seq<T>
    /** The task of the receiver's last poll, if that poll was pending and it was not woken since. */
    ghost var waiting: Option<Waker>

    ghost predicate Counted() reads this {
      strongCount == senders + (if receiverAlive then 1 else 0) && (hasReceiver ==> receiverAlive)
    }

    /** Nothing is lost, repeated or reordered. */
    ghost predicate Fifo() reads this { receiverAlive ==> accepted == received + buffer }

    /** A receiver that waits has nothing to do, can still get something, and will be woken. */
    ghost predicate NoLostWakeup() reads this, blockedRecv {
      waiting.Some? ==>
        buffer == [] && hasReceiver && senders > 0 && blockedRecv.waker == waiting
    }

    ghost predicate Valid() reads this, blockedRecv { Counted() && Fifo() && NoLostWakeup() }

    /** Closed and drained. */
    ghost predicate Finished() reads this { !hasReceiver && buffer == [] }

    constructor ()
      ensures Valid() && fresh(blockedRecv) && hasReceiver && buffer == []
      ensures senders == 1 && receiverAlive && accepted == received == [] && waiting.None?
    {
      buffer, hasReceiver, strongCount := [], true, 2;
      senders, receiverAlive, accepted, received, waiting := 1, true, [], [], None;
      blockedRecv := new LocalWaker();
    }

    /** Wakes the receiver's task; a receiver that waits is woken. */
    method WakeReceiver()
      requires waiting.Some? ==> blockedRecv.waker == waiting
      modifies this`waiting, blockedRecv
      ensures waiting.None? && blockedRecv.waker.None?
      ensures old(waiting).Some? ==> blockedRecv.woken == old(blockedRecv.woken) + [old(waiting).value]
    {
      blockedRecv.Wake();
      waiting := None;
    }

    /** `Sender::send`: refused once the channel is closed or the receiver is gone. */
    method Send(item: T) returns (ok: bool)
      requires Valid() && senders > 0
      modifies this, blockedRecv
      ensures Valid() && senders == old(senders) && receiverAlive == old(receiverAlive)
      ensures ok <==> old(hasReceiver)
      ensures hasReceiver == old(hasReceiver) && received == old(received)
      ensures ok ==> buffer == old(buffer) + [item] && accepted == old(accepted) + [item] && waiting.None?
      ensures ok && old(waiting).Some? ==> blockedRecv.woken == old(blockedRecv.woken) + [old(waiting).value]
      ensures !ok ==> buffer == old(buffer) && accepted == old(accepted) && waiting == old(waiting)
      ensures old(Finished()) ==> Finished()
    {
      if !hasReceiver { return false; }
      buffer := buffer + [item];
      accepted := accepted + [item];
      WakeReceiver();
      return true;
    }

    /** `Sender::close`: no sender can send any more; what is buffered can still be received. */
    method Close()
      requires Valid() && senders > 0
      modifies this, blockedRecv
      ensures Valid() && senders == old(senders) && receiverAlive == old(receiverAlive)
      ensures !hasReceiver && buffer == old(buffer) && received == old(received) && accepted == old(accepted)
      ensures old(waiting).Some? ==> blockedRecv.woken == old(blockedRecv.woken) + [old(waiting).value]
    {
      hasReceiver := false;
      WakeReceiver();
    }

    /** `Sender::clone`, and `Receiver::sender`, which can make the first sender again. */
    method NewSender()
      requires Valid() && (senders > 0 || receiverAlive)
      modifies this
      ensures Valid() && senders == old(senders) + 1 && receiverAlive == old(receiverAlive)
      ensures buffer == old(buffer) && received == old(received) && accepted == old(accepted)
      ensures hasReceiver == old(hasReceiver) && waiting == old(waiting)
    {
      strongCount := strongCount + 1;
      senders := senders + 1;
    }

    /** Dropping a sender; the last one wakes the receiver, whose stream has ended. */
    method DropSender()
      requires Valid() && senders > 0
      modifies this, blockedRecv
      ensures Valid() && senders == old(senders) - 1 && receiverAlive == old(receiverAlive)
      ensures buffer == old(buffer) && received == old(received) && accepted == old(accepted)
      ensures hasReceiver == old(hasReceiver)
      ensures waiting == if senders == 0 then None else old(waiting)
      ensures senders == 0 && old(waiting).Some? ==>
                blockedRecv.woken == old(blockedRecv.woken) + [old(waiting).value]
    {
      var count := strongCount;
      if hasReceiver && count == 2 { WakeReceiver(); }
      strongCount := strongCount - 1;
      senders := senders - 1;
    }

    /** `Receiver::poll_next`: the oldest buffered message; the end, when no message can come; or a
        promise to wake this task. */
    method PollNext(w: Waker) returns (r: Poll<T>)
      requires Valid() && receiverAlive
      modifies this, blockedRecv
      ensures Valid() && senders == old(senders) && receiverAlive && hasReceiver == old(hasReceiver)
      ensures accepted == old(accepted)
      ensures old(buffer) != [] ==>
                && r == Ready(Some(old(buffer)[0])) && buffer == old(buffer)[1..]
                && received == old(received) + [old(buffer)[0]]
      ensures old(buffer) == [] ==> buffer == [] && received == old(received) && (r.Pending? || r.item.None?)
      ensures r == Ready(None) <==> old(buffer) == [] && (!hasReceiver || senders == 0)
      ensures waiting == if r.Pending? then Some(w) else None
      ensures old(Finished()) ==> r == Ready(None) && Finished()
    {
      var allSendersDropped := strongCount == 1;
      if buffer != [] {
        r := Ready(Some(buffer[0]));
        received := received + [buffer[0]];
        buffer := buffer[1..];
        waiting := None;
      } else if !hasReceiver || allSendersDropped {
        r := Ready(None);
        waiting := None;
      } else {
        var _ := blockedRecv.Register(w);
        r := Pending;
        waiting := Some(w);
      }
    }

    /** Dropping the receiver discards what is buffered. */
    method DropReceiver()
      requires Valid() && receiverAlive
      modifies this
      ensures Valid() && Finished() && !receiverAlive && senders == old(senders)
      ensures received == old(received) && waiting.None?
    {
      buffer, hasReceiver := [], false;
      strongCount := strongCount - 1;
      receiverAlive, waiting := false, None;
    }
  }

  /** One operation of any sender, or of the receiver. */
  datatype Op<T> = DoSend(item: T) | DoClose | DoNewSender | DoDropSender | DoPoll(w: Waker) | DoDropReceiver

  /** Any program over one channel, skipping what has no reference to do it with: in every state a
      waiting receiver has an empty, open channel with a sender, and its waker in place. */
  method RunChannel<T>(ops: seq<Op<T>>) returns (c: Channel<T>, ghost got: seq<T>)
    ensures c.Valid() && got == c.received
    ensures c.receiverAlive ==> got <= c.accepted
    ensures c.waiting.Some? ==> c.accepted == got && c.blockedRecv.waker == c.waiting
  {
    c := new Channel();
    got := [];
    for i := 0 to |ops|
      invariant c.Valid() && got == c.received
      invariant fresh(c) && fresh(c.blockedRecv)
    {
      match ops[i] {
        case DoSend(item) => if c.senders > 0 { var _ := c.Send(item); }
        case DoClose => if c.senders > 0 { c.Close(); }
        case DoNewSender => if c.senders > 0 || c.receiverAlive { c.NewSender(); }
        case DoDropSender => if c.senders > 0 { c.DropSender(); }
        case DoDropReceiver => if c.receiverAlive { c.DropReceiver(); }
        case DoPoll(w) =>
          if c.receiverAlive {
            var r := c.PollNext(w);
            if r.Ready? && r.item.Some? { got := got + [r.item.value]; }
          }
      }
    }
  }
}
