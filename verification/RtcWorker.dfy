/** A worker's message queue and the pipe that wakes it, one call at a time; module QueueProtocol
    interleaves the same steps. */
module RtcWorker {
  import Q = LockFreeQueue

  const QUIT := 0
  const RTC_MSG := 1

  class RtcWorker<Msg(0)> {
    const queue: Q.LockFreeQueue<Msg>
    var pipe: seq<int>
    var running: bool
    /** The messages dispatched so far. */
    ghost var handled: seq<Msg>

    ghost predicate Valid()
      reads queue, queue.chain
    {
      queue.Valid()
    }

    constructor (dummy: Msg)
      ensures Valid() && queue.Contents() == [] && pipe == [] && handled == [] && running
      ensures fresh(queue) && fresh(queue.chain)
    {
      queue := new Q.LockFreeQueue(dummy);
      pipe, handled, running := [], [], true;
    }

    /** Writes `msg` to the pipe; `written` is the outcome of the system call. */
    method Notify(msg: int, written: bool) returns (r: int)
      modifies `pipe
      ensures pipe == (if written then old(pipe) + [msg] else old(pipe)) && r == if written then 0 else -1
    {
      if written {
        pipe := pipe + [msg];
        return 0;
      }
      return -1;
    }

    /** The message is queued before the bell is rung, and stays queued if ringing fails. */
    method SendRtcMsg(msg: Msg, written: bool) returns (r: int)
      requires Valid()
      modifies `pipe, queue, queue.chain
      ensures Valid() && queue.Contents() == old(queue.Contents()) + [msg]
      ensures pipe == (if written then old(pipe) + [RTC_MSG] else old(pipe)) && r == if written then 0 else -1
    {
      queue.Produce(msg);
      r := Notify(RTC_MSG, written);
    }

    /** Dispatches the oldest message; a token without a message is ignored. */
    method ProcessRtcMsg()
      requires Valid()
      modifies `handled, queue
      ensures Valid()
      ensures handled + queue.Contents() == old(handled + queue.Contents())
      ensures if old(queue.Contents()) == [] then handled == old(handled)
              else handled == old(handled) + [old(queue.Contents())[0]]
    {
      ghost var waiting := queue.Contents();
      var msg := queue.Consume();
      if msg.None? {
        return;
      }
      handled := handled + [msg.value];
      assert waiting == [msg.value] + waiting[1..];
    }

    method ProcessNotify(msg: int)
      requires Valid()
      modifies `running, `handled, queue
      ensures Valid() && running == (old(running) && msg != QUIT)
      ensures handled + queue.Contents() == old(handled + queue.Contents())
      ensures |handled| == |old(handled)| + if msg == RTC_MSG && old(queue.Contents()) != [] then 1 else 0
    {
      if msg == QUIT {
        running := false;
      } else if msg == RTC_MSG {
        ProcessRtcMsg();
      }
    }

    /** The event loop's callback: takes one token off the pipe and acts on it.  A read that yields no
        token changes nothing. */
    method OnPipeReadable()
      requires Valid()
      modifies this, queue
      ensures Valid() && handled + queue.Contents() == old(handled + queue.Contents())
      ensures if old(pipe) == [] then pipe == [] && running == old(running) && handled == old(handled)
              else pipe == old(pipe)[1..] && running == (old(running) && old(pipe)[0] != QUIT) &&
                   |handled| == |old(handled)| +
                     if old(pipe)[0] == RTC_MSG && old(queue.Contents()) != [] then 1 else 0
    {
      if pipe == [] {
        return;
      }
      var msg := pipe[0];
      pipe := pipe[1..];
      ProcessNotify(msg);
    }
  }
}
