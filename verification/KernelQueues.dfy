/** The loops of the kernel client over its two queues, each run to its end, proved against KernelRequests. */
module KernelQueues {
  import opened KernelEffects
  import opened KernelRequests

  class Device {
    var sendQueue: seq<nat>
    var recvQueue: seq<Sent>
    var ended: seq<nat>

    constructor ()
      ensures sendQueue == [] && recvQueue == [] && ended == []
    {
      sendQueue, recvQueue, ended := [], [], [];
    }

    method AddQueue(rq: nat)
      modifies this`sendQueue
      ensures sendQueue == old(sendQueue) + [rq]
    {
      sendQueue := sendQueue + [rq];
    }

    /** `dnbd3_rq_timeout`: a request still to be sent stays, one waiting for its reply is sent again. */
    method RqTimeout(rq: nat) returns (reset: bool)
      modifies this`sendQueue, this`recvQueue
      ensures reset == (rq in old(sendQueue) || IndexIn(old(recvQueue), rq) < |old(recvQueue)|)
      ensures if rq !in old(sendQueue) && reset
              then recvQueue == Without(old(recvQueue), IndexIn(old(recvQueue), rq))
                && sendQueue == old(sendQueue) + [rq]
              else recvQueue == old(recvQueue) && sendQueue == old(sendQueue)
      ensures rq !in old(sendQueue) && reset ==>
        StandsFor(Retry(rq), old(sendQueue), old(recvQueue), old(ended), sendQueue, recvQueue, ended)
    {
      var i := 0;
      while i < |sendQueue|
        invariant i <= |sendQueue| && rq !in sendQueue[..i]
      {
        if sendQueue[i] == rq {
          return true;
        }
        i := i + 1;
      }
      assert rq !in sendQueue;
      var found := RemoveReceiving(rq);
      if !found {
        return false;
      }
      AddQueue(rq);
      RetryStands(old(sendQueue), old(recvQueue), ended, IndexIn(old(recvQueue), rq));
      return true;
    }

    /** The search of the receive queue by the receive worker and the timeout handler. */
    method RemoveReceiving(rq: nat) returns (found: bool)
      modifies this`recvQueue
      ensures found == (IndexIn(old(recvQueue), rq) < |old(recvQueue)|)
      ensures recvQueue == if found then Without(old(recvQueue), IndexIn(old(recvQueue), rq)) else old(recvQueue)
    {
      var i := 0;
      while i < |recvQueue|
        invariant i <= |recvQueue| && recvQueue == old(recvQueue) && forall k :: 0 <= k < i ==> recvQueue[k].rq != rq
      {
        if recvQueue[i].rq == rq {
          recvQueue := recvQueue[..i] + recvQueue[i + 1..];
          return true;
        }
        i := i + 1;
      }
      return false;
    }

    /** Empties the receive queue into a local list, newest first. */
    method DrainRecv() returns (local: seq<nat>)
      modifies this`recvQueue
      ensures recvQueue == [] && local == Reversed(old(recvQueue))
    {
      local := [];
      ghost var n := 0;
      while recvQueue != []
        invariant n <= |old(recvQueue)| && recvQueue == old(recvQueue)[n..] && local == Reversed(old(recvQueue)[..n])
        decreases |recvQueue|
      {
        assert old(recvQueue)[..n + 1][..n] == old(recvQueue)[..n];
        local := [recvQueue[0].rq] + local;
        recvQueue := recvQueue[1..];
        n := n + 1;
      }
      assert old(recvQueue)[..n] == old(recvQueue);
    }

    /** `dnbd3_blk_requeue_all_requests`: what was waiting for replies is sent again, newest first. */
    method RequeueAllRequests()
      modifies this`sendQueue, this`recvQueue
      ensures recvQueue == [] && sendQueue == old(sendQueue) + NewestFirst(Requests(old(recvQueue)))
      ensures StandsFor(Requeue(|old(recvQueue)|), old(sendQueue), old(recvQueue), old(ended),
        sendQueue, recvQueue, ended)
    {
      ReversedIsNewestFirst(recvQueue);
      var local := DrainRecv();
      ghost var all := local;
      while local != []
        invariant recvQueue == [] && sendQueue + local == old(sendQueue) + all
        decreases |local|
      {
        sendQueue := sendQueue + [local[0]];
        local := local[1..];
      }
      assert sendQueue + local == sendQueue;
      RequeueStands(old(sendQueue), old(recvQueue), ended);
    }

    /** Puts the send queue in front of a local list, newest first. */
    method DrainSend(list: seq<nat>) returns (local: seq<nat>)
      modifies this`sendQueue
      ensures sendQueue == [] && local == ReversedRqs(old(sendQueue)) + list
    {
      local := list;
      ghost var n := 0;
      while sendQueue != []
        invariant n <= |old(sendQueue)| && sendQueue == old(sendQueue)[n..]
        invariant local == ReversedRqs(old(sendQueue)[..n]) + list
        decreases |sendQueue|
      {
        assert old(sendQueue)[..n + 1][..n] == old(sendQueue)[..n];
        local := [sendQueue[0]] + local;
        sendQueue := sendQueue[1..];
        n := n + 1;
      }
      assert old(sendQueue)[..n] == old(sendQueue);
    }

    /** `dnbd3_blk_fail_all_requests`: ends every request of both queues, each once. */
    method FailAllRequests()
      modifies this
      ensures recvQueue == [] && sendQueue == []
      ensures ended == old(ended) + (NewestFirst(old(sendQueue)) + NewestFirst(Requests(old(recvQueue))))
      ensures StandsFor(FailBoth(|old(sendQueue)| + |old(recvQueue)|), old(sendQueue), old(recvQueue), old(ended),
        sendQueue, recvQueue, ended)
    {
      ReversedIsNewestFirst(recvQueue);
      ReversedRqsIsNewestFirst(sendQueue);
      var local := DrainRecv();
      local := DrainSend(local);
      ghost var all := local;
      while local != []
        invariant recvQueue == [] && sendQueue == [] && ended + local == old(ended) + all
        decreases |local|
      {
        ended := ended + [local[0]];
        local := local[1..];
      }
      assert ended + local == ended;
      FailStands(old(sendQueue), old(recvQueue), old(ended));
    }
  }
}
