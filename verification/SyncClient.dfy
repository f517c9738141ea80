// The web client's sync cursor: one entry of its connections map, and what a
// sync reply or a push notification does to it.

module SyncClient {
  import opened Inbox
  import T = Timeline

  datatype Status = Connecting | Handshaking | Online | Kicked | Offline

  /** `shown` is every message the handler has passed to the log, which itself keeps the last 100 lines. */
  class Connection {
    const user: int
    var status: Status
    var localSeq: int
    var shown: set<Row>
    var requests: seq<(int, int)>  // (local_seq, limit) of each sync request sent

    constructor (user: int)
      ensures this.user == user && status == Connecting && localSeq == 0 && shown == {} && requests == []
    {
      this.user := user;
      status, localSeq, shown, requests := Connecting, 0, {}, [];
    }

    ghost predicate Shows(c: T.Client)
      reads this
    {
      c.user == user && c.localSeq == localSeq && c.delivered == shown
    }

    /** syncMessages: only when online, and from the cursor as it stands now. */
    method SyncMessages()
      modifies this`requests
      ensures requests == if status == Online then old(requests) + [(localSeq, 50)] else old(requests)
    {
      if !status.Online? {
        return;
      }
      requests := requests + [(localSeq, T.CLIENT_LIMIT)];
    }

    /** handleMessage for MSG_PUSH_NOTIFY: the pushed max_seq is not read, only another sync is sent. */
    method OnPushNotify()
      modifies this`requests
      ensures requests == if status == Online then old(requests) + [(localSeq, 50)] else old(requests)
    {
      SyncMessages();
    }

    /** handleMessage for MSG_SYNC_RESP is the Receive step of the timeline system, whichever branch runs. */
    method OnSyncResp(maxSeq: int, msgs: seq<Row>, ghost c: T.Client)
      requires Shows(c)
      modifies this`localSeq, this`shown
      ensures Shows(T.Received(c, msgs, maxSeq))
      ensures localSeq == if maxSeq > old(localSeq) then maxSeq else old(localSeq)
      ensures shown == old(shown) + set r <- msgs
    {
      if |msgs| > 0 {
        if maxSeq > localSeq {
          localSeq := maxSeq;
        }
        for i := 0 to |msgs|
          invariant shown == old(shown) + set r <- msgs[..i]
          invariant localSeq == if maxSeq > old(localSeq) then maxSeq else old(localSeq)
        {
          shown := shown + {msgs[i]};
          assert msgs[..i + 1] == msgs[..i] + [msgs[i]];
        }
        assert msgs[..|msgs|] == msgs;
      } else {
        if maxSeq > localSeq {
          localSeq := maxSeq;
        }
        assert shown + (set r <- msgs) == shown;
      }
    }
  }
}
