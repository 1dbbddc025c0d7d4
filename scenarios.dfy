/** Sequences of handler calls, and what callers can conclude from the handlers'
    contracts alone. */
module Scenarios {
  import opened Optional
  import opened Users
  import opened FriendRequests

  /** Sending the same friend request twice: the second call is refused as a duplicate and
      writes nothing. */
  method CreateTwice(d: Directory, callerId: UserId, target: Email) returns (first: Reply<Created>, second: Reply<Created>)
    requires Consistent(d.users, d.ids)
    modifies d
    ensures Consistent(d.users, d.ids)
    ensures first.Success? ==> second == Failure(400, MsgAlreadySent)
    ensures first.Success? ==>
              callerId in d.ids && target in old(d.users)
              && d.users == AfterRequest(old(d.users), target, d.ids[callerId])
  {
    first := d.CreateFriendRequest(callerId, Some(target));
    second := d.CreateFriendRequest(callerId, Some(target));
  }

  /** A request from `a` to `b` followed by `b` accepting it leaves `a` and `b` in each
      other's `friends`, and no pending request from `a` at `b`. */
  method RequestThenAccept(d: Directory, aId: UserId, bId: UserId) returns (sent: Reply<Created>, accepted: Reply<User>)
    requires Consistent(d.users, d.ids) && aId in d.ids && bId in d.ids && d.ids[aId] != ""
    modifies d
    ensures Consistent(d.users, d.ids) && d.ids == old(d.ids)
    ensures sent.Success? ==> accepted.Success?
    ensures sent.Success? ==>
              var a, b := d.ids[aId], d.ids[bId];
              && a in d.users[b].friends && b in d.users[a].friends
              && a !in d.users[b].friendRequests
  {
    var a, b := d.ids[aId], d.ids[bId];
    sent := d.CreateFriendRequest(aId, Some(b));
    if sent.Success? {
      assert a in d.users[b].friendRequests;
    }
    accepted := d.AcceptFriendRequest(bId, Some(a));
  }

  /** Accepting the same request twice: the second call finds no pending request and writes
      nothing. */
  method AcceptTwice(d: Directory, callerId: UserId, friend: Email) returns (first: Reply<User>, second: Reply<User>)
    requires Consistent(d.users, d.ids)
    modifies d
    ensures Consistent(d.users, d.ids)
    ensures first.Success? ==> second == Failure(400, MsgRequestNotFound)
  {
    first := d.AcceptFriendRequest(callerId, Some(friend));
    second := d.AcceptFriendRequest(callerId, Some(friend));
  }

  /** Rejecting a request from an email no user has still succeeds, with a null record. */
  method RejectUnknown(d: Directory, callerId: UserId, stranger: Email) returns (r: Reply<Option<User>>)
    requires Consistent(d.users, d.ids) && callerId in d.ids && stranger != "" && stranger !in d.users
    modifies d
    ensures r == Success(200, None)
  {
    r := d.RejectFriendRequest(callerId, Some(stranger));
  }
}
