// The gateway's registry of joined sessions: users_, a map of sets of sessions.

module ConnectionManager {
  import opened WriteQueue

  class Manager {
    var users: map<int, set<WebsocketSession>>

    constructor ()
      ensures users == map[] && Valid()
    {
      users := map[];
    }

    /** No user is registered without a session. */
    predicate Valid()
      reads this
    {
      forall u <- users :: users[u] != {}
    }

    function SessionsOf(user: int): set<WebsocketSession>
      reads this
    {
      if user in users then users[user] else {}
    }

    method Join(user: int, session: WebsocketSession)
      requires Valid()
      modifies this
      ensures Valid() && user in users && users - {user} == old(users) - {user}
      ensures users[user] == (if user in old(users) then old(users)[user] else {}) + {session}
    {
      users := users[user := SessionsOf(user) + {session}];
    }

    /** A user's last session takes the user with it. */
    method Leave(user: int, session: WebsocketSession)
      requires Valid()
      modifies this
      ensures Valid() && users - {user} == old(users) - {user}
      ensures user in users <==> user in old(users) && old(users)[user] != {session}
      ensures user in users ==> users[user] == old(users)[user] - {session}
    {
      if user in users {
        users := users[user := users[user] - {session}];
        if users[user] == {} {
          users := users - {user};
        }
      }
    }

    /** Every joined session of the user gets the message once, after what was posted to it before. */
    method SendToUser(user: int, msg: Message)
      requires forall s <- SessionsOf(user) :: s.Valid()
      modifies SessionsOf(user)`strand, SessionsOf(user)`history
      ensures user in users ==> forall s <- users[user] ::
        s.Valid() && s.history == AfterPost(old(s.history), SendHandler(msg)) && s.strand == old(s.strand) + [SendHandler(msg)]
    {
      hide AfterPost, Reachable;
      var todo := SessionsOf(user);
      while todo != {}
        invariant todo <= SessionsOf(user)
        invariant forall s <- SessionsOf(user) :: s.Valid()
        invariant forall s <- todo :: s.history == old(s.history) && s.strand == old(s.strand)
        invariant forall s <- SessionsOf(user) - todo ::
          s.history == AfterPost(old(s.history), SendHandler(msg)) && s.strand == old(s.strand) + [SendHandler(msg)]
        decreases todo
      {
        var s :| s in todo;
        s.Send(msg);
        todo := todo - {s};
      }
    }

    /** Exactly the joined sessions on that device are kicked, once; the empty device means all. Each of
        them, if it was not being kicked already, closes gracefully however it goes on. */
    method KickUser(user: int, device: string)
      requires forall s <- SessionsOf(user) :: s.Valid()
      modifies SessionsOf(user)`strand, SessionsOf(user)`history
      ensures user in users ==> forall s <- users[user] | device == "" || s.device == device ::
        s.Valid() && s.history == AfterPost(old(s.history), KickHandler) && s.strand == old(s.strand) + [KickHandler]
      ensures user in users ==> forall s <- users[user] | device != "" && s.device != device ::
        s.Valid() && s.history == old(s.history) && s.strand == old(s.strand)
      ensures user in users ==> forall s <- users[user] | (device == "" || s.device == device) && NotKicked(old(s.history)) ::
        ClosesGracefully(old(s.history), s.history)
    {
      forall s <- SessionsOf(user) | NotKicked(s.history)
        ensures ClosesGracefully(s.history, AfterPost(s.history, KickHandler))
      {
        GracefulKick(s.history);
      }
      hide NotKicked, ClosesGracefully, AfterPost, Reachable;
      KickEach(user, device);
    }

    method KickEach(user: int, device: string)
      requires forall s <- SessionsOf(user) :: s.Valid()
      modifies SessionsOf(user)`strand, SessionsOf(user)`history
      ensures forall s <- SessionsOf(user) | device == "" || s.device == device ::
        s.Valid() && s.history == AfterPost(old(s.history), KickHandler) && s.strand == old(s.strand) + [KickHandler]
      ensures forall s <- SessionsOf(user) | device != "" && s.device != device ::
        s.Valid() && s.history == old(s.history) && s.strand == old(s.strand)
    {
      hide AfterPost, Reachable;
      var todo := SessionsOf(user);
      while todo != {}
        invariant todo <= SessionsOf(user)
        invariant forall s <- SessionsOf(user) :: s.Valid()
        invariant forall s <- todo :: s.history == old(s.history) && s.strand == old(s.strand)
        invariant forall s <- SessionsOf(user) - todo | device == "" || s.device == device ::
          s.history == AfterPost(old(s.history), KickHandler) && s.strand == old(s.strand) + [KickHandler]
        invariant forall s <- SessionsOf(user) - todo | device != "" && s.device != device ::
          s.history == old(s.history) && s.strand == old(s.strand)
        decreases todo
      {
        var s :| s in todo;
        if device == "" || s.device == device {
          s.Kick();
        }
        todo := todo - {s};
      }
    }
  }
}
