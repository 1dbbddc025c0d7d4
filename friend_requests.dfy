/** The five friend-request handlers over a user directory. The document store is a map
    from email to user record plus an index from user id to email; `findById` and
    `findOne({ email })` are lookups in them and each `save()` is a write to the map. */
module FriendRequests {
  import opened Optional
  import opened Lists
  import opened Patterns
  import opened Users

  const MsgCreateFieldRequired := "Friend request ID is required"
  const MsgCurrentUserNotFound := "Current user not found"
  const MsgTargetNotFound := "User with this email does not exist. Please make sure the email address is correct and the user has signed up for the application."
  const MsgAlreadySent := "Friend request already sent to this user"
  const MsgAlreadyFriends := "You are already friends with this user"
  const MsgRejectFieldRequired := "Friend request email is required"
  const MsgUserNotFound := "User not found"
  const MsgAcceptFieldRequired := "Friend's email is required"
  const MsgRequestNotFound := "Friend request not found"
  /** What the runtime reports when accept reads `friends` of a friend record that is null. */
  const MsgNullFriends := "Cannot read properties of null (reading 'friends')"
  const MsgSearchFieldsRequired := "searchTerm and friendRequests are required"

  /** The body of a successful create: the target as it was read, and the caller. */
  datatype Created = Created(target: User, requester: User)

  /** The body of a successful list: the "No friend requests found" message, or the entries. */
  datatype Listing = NoRequests | Requests(entries: seq<Option<Profile>>)

  /** Each record is stored under its own email. */
  ghost predicate KeyedByEmail(users: map<Email, User>)
  {
    forall e :: e in users ==> users[e].email == e
  }

  /** Records are keyed by their email, and the id index and the records agree. */
  ghost predicate Consistent(users: map<Email, User>, ids: map<UserId, Email>)
  {
    && KeyedByEmail(users)
    && (forall e :: e in users ==> users[e].id in ids && ids[users[e].id] == e)
    && (forall i :: i in ids ==> ids[i] in users && users[ids[i]].id == i)
  }

  /** No user's `friendRequests` or `friends` list holds an email twice. */
  ghost predicate AllDistinct(users: map<Email, User>)
  {
    forall e :: e in users ==> NoDup(users[e].friendRequests) && NoDup(users[e].friends)
  }

  /** The projected record of the user with this email, if there is one. */
  function ProfileByEmail(users: map<Email, User>, e: Email): Option<Profile>
  {
    if e in users then Some(ProfileOf(users[e])) else None
  }

  /** Replacing a record by one with the same email and id keeps the directory consistent. */
  lemma ReplaceKeepsConsistent(users: map<Email, User>, ids: map<UserId, Email>, e: Email, u: User)
    requires Consistent(users, ids) && e in users
    requires u.email == users[e].email && u.id == users[e].id
    ensures Consistent(users[e := u], ids)
  {
  }

  /** Replacing a record by one whose lists are duplicate-free keeps every list duplicate-free. */
  lemma ReplaceKeepsDistinct(users: map<Email, User>, e: Email, u: User)
    requires AllDistinct(users)
    requires NoDup(u.friendRequests) && NoDup(u.friends)
    ensures AllDistinct(users[e := u])
  {
  }

  // ---------------------------------------------------------------------------------
  // The writes of create, reject and accept, as functions of the stored records

  /** Create's `$addToSet`: the caller's email `me` added to the pending requests of `t`. */
  function AfterRequest(users: map<Email, User>, t: Email, me: Email): (after: map<Email, User>)
    requires t in users
    ensures after.Keys == users.Keys
  {
    users[t := users[t].(friendRequests := AddIfAbsent(users[t].friendRequests, me))]
  }

  /** When the guards have passed, create appends the caller's email to the target's pending
      requests, where it is then present exactly once, and changes nothing else. */
  lemma RequestRecorded(users: map<Email, User>, ids: map<UserId, Email>, t: Email, me: Email)
    requires Consistent(users, ids) && t in users
    requires me !in users[t].friendRequests
    ensures var after := AfterRequest(users, t, me);
            && Consistent(after, ids) && after.Keys == users.Keys
            && after[t].friendRequests == users[t].friendRequests + [me]
            && multiset(after[t].friendRequests)[me] == 1
            && after[t] == users[t].(friendRequests := after[t].friendRequests)
            && (forall e :: e in users && e != t ==> after[e] == users[e])
            && (AllDistinct(users) ==> AllDistinct(after))
  {
  }

  /** Reject's write: every occurrence of `x` filtered out of the pending requests of `me`. */
  function AfterReject(users: map<Email, User>, me: Email, x: Email): (after: map<Email, User>)
    requires me in users
    ensures after.Keys == users.Keys
  {
    users[me := users[me].(friendRequests := Without(users[me].friendRequests, x))]
  }

  /** Reject leaves `x` nowhere in the caller's pending requests, keeps every other entry
      (in order, by WithoutAppend), changes nothing when `x` was not pending, and touches no
      other record or field. */
  lemma RejectRemoves(users: map<Email, User>, ids: map<UserId, Email>, me: Email, x: Email)
    requires Consistent(users, ids) && me in users
    ensures var after := AfterReject(users, me, x);
            && Consistent(after, ids) && after.Keys == users.Keys
            && x !in after[me].friendRequests
            && multiset(after[me].friendRequests) == multiset(users[me].friendRequests)[x := 0]
            && after[me] == users[me].(friendRequests := after[me].friendRequests)
            && (forall e :: e in users && e != me ==> after[e] == users[e])
            && (x !in users[me].friendRequests ==> after == users)
            && (AllDistinct(users) ==> AllDistinct(after))
  {
    var u := users[me].(friendRequests := Without(users[me].friendRequests, x));
    ReplaceKeepsConsistent(users, ids, me, u);
    if x !in users[me].friendRequests {
      WithoutAbsent(users[me].friendRequests, x);
      assert users[me := u] == users;
    }
    if AllDistinct(users) {
      WithoutNoDup(users[me].friendRequests, x);
      ReplaceKeepsDistinct(users, me, u);
    }
  }

  /** Accept's two saves. The caller's save sets its pending requests to the filtered list and
      appends to its `friends` what line 133 pushed. The friend's save then appends to the
      friend's `friends`, as stored after the first save, what line 134 pushed onto the copy
      read before either save. */
  function AfterAccept(users: map<Email, User>, me: Email, f: Email): (after: map<Email, User>)
    requires me in users && f in users
    ensures after.Keys == users.Keys
  {
    var mine := users[me].(friendRequests := Without(users[me].friendRequests, f),
                           friends := users[me].friends + Pushed(users[me].friends, f));
    var saved := users[me := mine];
    saved[f := saved[f].(friends := saved[f].friends + Pushed(users[f].friends, me))]
  }

  /** Accept makes the friendship symmetric and drops the pending entry. Between two distinct
      users it grows each `friends` list by at most one and keeps every list duplicate-free. */
  lemma AcceptMakesFriends(users: map<Email, User>, me: Email, f: Email)
    requires me in users && f in users
    ensures var after := AfterAccept(users, me, f);
            && f !in after[me].friendRequests
            && f in after[me].friends
            && me in after[f].friends
            && (me != f ==> |after[me].friends| <= |users[me].friends| + 1)
            && (me != f ==> |after[f].friends| <= |users[f].friends| + 1)
            && (me != f && AllDistinct(users) ==> AllDistinct(after))
  {
    var mine := users[me].(friendRequests := Without(users[me].friendRequests, f),
                           friends := AddIfAbsent(users[me].friends, f));
    var saved := users[me := mine];
    if me != f {
      var theirs := users[f].(friends := AddIfAbsent(users[f].friends, me));
      assert AfterAccept(users, me, f) == saved[f := theirs];
      if AllDistinct(users) {
        WithoutNoDup(users[me].friendRequests, f);
        ReplaceKeepsDistinct(users, me, mine);
        ReplaceKeepsDistinct(saved, f, theirs);
      }
    }
  }

  /** A user who sent a request to their own email and accepts it has the email pushed onto
      both in-memory copies of the one record, and both appends are saved: the email ends up
      twice in that user's `friends`. */
  lemma SelfAcceptDuplicates(users: map<Email, User>, me: Email)
    requires me in users && me in users[me].friendRequests && me !in users[me].friends
    ensures AfterAccept(users, me, me)[me].friends == users[me].friends + [me, me]
    ensures !NoDup(AfterAccept(users, me, me)[me].friends)
  {
    var s := AfterAccept(users, me, me)[me].friends;
    assert s == users[me].friends + [me] + [me];
    assert s[|s| - 2] == s[|s| - 1];
  }

  /** Accept keeps the directory consistent: the two records it writes keep their email and id. */
  lemma AcceptKeepsConsistent(users: map<Email, User>, ids: map<UserId, Email>, me: Email, f: Email)
    requires Consistent(users, ids) && me in users && f in users
    ensures Consistent(AfterAccept(users, me, f), ids) && AfterAccept(users, me, f).Keys == users.Keys
  {
    var mine := users[me].(friendRequests := Without(users[me].friendRequests, f),
                           friends := users[me].friends + Pushed(users[me].friends, f));
    var saved := users[me := mine];
    ReplaceKeepsConsistent(users, ids, me, mine);
    ReplaceKeepsConsistent(saved, ids, f, saved[f].(friends := saved[f].friends + Pushed(users[f].friends, me)));
  }

  /** Accept writes only the caller's pending requests and friends and the friend's friends:
      every other record, and every other field, stays as it was. */
  lemma AcceptTouchesTwo(users: map<Email, User>, me: Email, f: Email)
    requires me in users && f in users
    ensures var after := AfterAccept(users, me, f);
            && (forall e :: e in users && e != me && e != f ==> e in after && after[e] == users[e])
            && after[me].friendRequests == Without(users[me].friendRequests, f)
            && after[me] == users[me].(friendRequests := after[me].friendRequests,
                                       friends := after[me].friends)
            && (me != f ==> after[f] == users[f].(friends := after[f].friends))
  {
  }

  // ---------------------------------------------------------------------------------
  // List: `friendRequestEmails.slice().reverse().map(email => found.find(u => u.email === email))`

  /** `found.find(u => u.email === e)`: the first fetched record with that email. */
  function FindByEmail(found: seq<Profile>, e: Email): (r: Option<Profile>)
    ensures r.Some? ==> r.value in found && r.value.email == e
    ensures r.Some? ==> exists k :: 0 <= k < |found| && found[k] == r.value
                                    && forall j :: 0 <= j < k ==> found[j].email != e
    ensures r.None? ==> forall k :: 0 <= k < |found| ==> found[k].email != e
  {
    if found == [] then None
    else if found[0].email == e then Some(found[0])
    else FindByEmail(found[1..], e)
  }

  /** The pending emails, newest first, each replaced by its fetched record. */
  function Arrange(pending: seq<Email>, found: seq<Profile>): (r: seq<Option<Profile>>)
    ensures |r| == |pending|
  {
    var newestFirst := Reverse(pending);
    seq(|newestFirst|, i requires 0 <= i < |newestFirst| => FindByEmail(found, newestFirst[i]))
  }

  /** `found` is an answer of the store to `find({ email: { $in: pending } }).select(...)`,
      in whatever order the store returns it: it holds the projection of every stored user
      whose email is pending, and nothing else. */
  ghost predicate FetchedFrom(users: map<Email, User>, pending: seq<Email>, found: seq<Profile>)
  {
    && (forall k :: 0 <= k < |found| ==>
          found[k].email in pending && found[k].email in users && found[k] == ProfileOf(users[found[k].email]))
    && (forall e :: e in pending && e in users ==> ProfileOf(users[e]) in found)
  }

  /** Entry i of the list is the user of the i-th newest pending email, or absent when no
      user has that email. */
  lemma ArrangedAt(users: map<Email, User>, pending: seq<Email>, found: seq<Profile>, i: int)
    requires KeyedByEmail(users) && FetchedFrom(users, pending, found)
    requires 0 <= i < |pending|
    ensures Arrange(pending, found)[i] == ProfileByEmail(users, pending[|pending| - 1 - i])
  {
  }

  /** The order in which the store returns the fetched records does not matter. */
  lemma ArrangeIgnoresFetchOrder(users: map<Email, User>, pending: seq<Email>, a: seq<Profile>, b: seq<Profile>)
    requires KeyedByEmail(users)
    requires FetchedFrom(users, pending, a) && FetchedFrom(users, pending, b)
    ensures Arrange(pending, a) == Arrange(pending, b)
  {
  }

  // ---------------------------------------------------------------------------------
  // Search: the `$or` of four regular-expression tests

  /** The search term occurs, up to case, in the first name, the last name, the email or
      the full name. */
  ghost predicate TermMatches(u: User, term: string)
  {
    Occurs(u.firstName, term) || Occurs(u.lastName, term) || Occurs(u.email, term)
    || Occurs(u.firstName + " " + u.lastName, term)
  }

  /** The filter of the search query for one user, with the escaped pattern. */
  predicate PatternMatches(u: User, pattern: string)
    requires Literal(pattern).Some?
    ensures PatternMatches(u, pattern) <==> TermMatches(u, Literal(pattern).value)
  {
    || Matches(pattern, u.firstName)
    || Matches(pattern, u.lastName)
    || Matches(pattern, u.email)
    || Matches(pattern, u.firstName + " " + u.lastName)
  }

  /** Filtering with the escaped term is filtering by literal occurrence of the term. */
  lemma EscapedSearch(term: string)
    ensures Literal(Escape(term)).Some?
    ensures forall u :: PatternMatches(u, Escape(term)) <==> TermMatches(u, term)
  {
    EscapeIsLiteral(term);
    forall u ensures PatternMatches(u, Escape(term)) <==> TermMatches(u, term) {
      EscapedMatches(term, u.firstName);
      EscapedMatches(term, u.lastName);
      EscapedMatches(term, u.email);
      EscapedMatches(term, u.firstName + " " + u.lastName);
    }
  }

  /** The user directory, updated in place by the handlers. */
  class Directory {
    var users: map<Email, User>
    var ids: map<UserId, Email>

    constructor Load(records: map<Email, User>, index: map<UserId, Email>)
      requires Consistent(records, index)
      ensures Consistent(users, ids) && users == records && ids == index
    {
      users := records;
      ids := index;
    }

    /** `User.findById(id)`. */
    function FindById(id: UserId): (r: Option<User>)
      reads this
      requires Consistent(users, ids)
      ensures r.Some? <==> id in ids
      ensures r.Some? ==> r.value.id == id && r.value.email in users && users[r.value.email] == r.value
    {
      if id in ids then Some(users[ids[id]]) else None
    }

    /** `User.findOne({ email: e })`. */
    function FindOne(e: Email): (r: Option<User>)
      reads this
      requires Consistent(users, ids)
      ensures r.Some? <==> e in users
      ensures r.Some? ==> r.value.email == e && r.value.id in ids && ids[r.value.id] == e
    {
      if e in users then Some(users[e]) else None
    }

    /** createFriendRequest: the guards in order, then `$addToSet` of the caller's email to
        the target's `friendRequests`. No guard writes anything. */
    method CreateFriendRequest(callerId: UserId, friendRequest: Option<string>) returns (r: Reply<Created>)
      requires Consistent(users, ids)
      modifies this
      ensures Consistent(users, ids) && ids == old(ids) && users.Keys == old(users.Keys)
      ensures old(AllDistinct(users)) ==> AllDistinct(users)
      ensures !Present(friendRequest) ==> r == Failure(400, MsgCreateFieldRequired)
      ensures Present(friendRequest) && callerId !in ids ==> r == Failure(404, MsgCurrentUserNotFound)
      ensures Present(friendRequest) && callerId in ids && friendRequest.value !in old(users) ==>
                r == Failure(404, MsgTargetNotFound)
      ensures Present(friendRequest) && callerId in ids && friendRequest.value in old(users) ==>
                var me, target := old(users[ids[callerId]]), old(users[friendRequest.value]);
                && (me.email in target.friendRequests ==> r == Failure(400, MsgAlreadySent))
                && (me.email !in target.friendRequests && me.email in target.friends ==> r == Failure(400, MsgAlreadyFriends))
                && (me.email !in target.friendRequests && me.email !in target.friends ==> r == Success(201, Created(target, me)))
      ensures r.Success? <==>
                Present(friendRequest) && callerId in ids && friendRequest.value in old(users)
                && ids[callerId] !in old(users[friendRequest.value].friendRequests)
                && ids[callerId] !in old(users[friendRequest.value].friends)
      ensures r.Failure? ==> users == old(users)
      ensures r.Success? ==>
                var t, me := friendRequest.value, ids[callerId];
                && users == AfterRequest(old(users), t, me)
                && users[t].friendRequests == old(users[t].friendRequests) + [me]
    {
      if !Present(friendRequest) {
        return Failure(400, MsgCreateFieldRequired);
      }
      var currentUser := FindById(callerId);
      if currentUser.None? {
        return Failure(404, MsgCurrentUserNotFound);
      }
      var target := FindOne(friendRequest.value);
      if target.None? {
        return Failure(404, MsgTargetNotFound);
      }
      var me, t := currentUser.value, target.value;
      if me.email in t.friendRequests {
        return Failure(400, MsgAlreadySent);
      }
      if me.email in t.friends {
        return Failure(400, MsgAlreadyFriends);
      }
      RequestRecorded(users, ids, t.email, me.email);
      var stored := users[t.email];
      users := users[t.email := stored.(friendRequests := AddIfAbsent(stored.friendRequests, me.email))];
      r := Success(201, Created(t, me));
    }

    /** rejectFriendRequest: the guards, then the caller's `friendRequests` filtered and saved;
        the reply carries the requester's record as it was read, or null. */
    method RejectFriendRequest(callerId: UserId, friendRequest: Option<string>) returns (r: Reply<Option<User>>)
      requires Consistent(users, ids)
      modifies this
      ensures Consistent(users, ids) && ids == old(ids) && users.Keys == old(users.Keys)
      ensures old(AllDistinct(users)) ==> AllDistinct(users)
      ensures !Present(friendRequest) ==> r == Failure(400, MsgRejectFieldRequired)
      ensures Present(friendRequest) && callerId !in ids ==> r == Failure(404, MsgUserNotFound)
      ensures r.Success? <==> Present(friendRequest) && callerId in ids
      ensures r.Failure? ==> users == old(users)
      ensures r.Success? ==>
                var me, x := ids[callerId], friendRequest.value;
                && r.status == 200
                && r.body == (if x in old(users) then Some(old(users[x])) else None)
                && users == AfterReject(old(users), me, x)
                && x !in users[me].friendRequests
    {
      if !Present(friendRequest) {
        return Failure(400, MsgRejectFieldRequired);
      }
      var currentUser := FindById(callerId);
      if currentUser.None? {
        return Failure(404, MsgUserNotFound);
      }
      var deletedUser := FindOne(friendRequest.value);
      var me := currentUser.value;
      RejectRemoves(users, ids, me.email, friendRequest.value);
      users := users[me.email := me.(friendRequests := Without(me.friendRequests, friendRequest.value))];
      r := Success(200, deletedUser);
    }

    /** acceptFriendRequest: the guards, the pending entry filtered out, each email pushed
        onto the other's `friends` unless there, then the caller saved and the friend saved.
        When no user has the friend's email the handler fails reading its `friends`, before
        either save. */
    method AcceptFriendRequest(callerId: UserId, friendEmail: Option<string>) returns (r: Reply<User>)
      requires Consistent(users, ids)
      modifies this
      ensures Consistent(users, ids) && ids == old(ids) && users.Keys == old(users.Keys)
      ensures !Present(friendEmail) ==> r == Failure(400, MsgAcceptFieldRequired)
      ensures Present(friendEmail) && callerId !in ids ==> r == Failure(404, MsgUserNotFound)
      ensures Present(friendEmail) && callerId in ids && friendEmail.value !in old(users[ids[callerId]].friendRequests) ==>
                r == Failure(400, MsgRequestNotFound)
      ensures (Present(friendEmail) && callerId in ids && friendEmail.value in old(users[ids[callerId]].friendRequests)
               && friendEmail.value !in old(users)) ==> r == Failure(500, MsgNullFriends)
      ensures r.Success? <==>
                Present(friendEmail) && callerId in ids && friendEmail.value in old(users[ids[callerId]].friendRequests)
                && friendEmail.value in old(users)
      ensures r.Failure? ==> users == old(users)
      ensures r.Success? ==>
                var me, f := ids[callerId], friendEmail.value;
                && r.status == 200
                && r.body == old(users[f]).(friends := AddIfAbsent(old(users[f].friends), me))
                && users == AfterAccept(old(users), me, f)
                && f !in users[me].friendRequests && f in users[me].friends && me in users[f].friends
      ensures old(AllDistinct(users)) && !(r.Success? && friendEmail.value == ids[callerId]) ==> AllDistinct(users)
      ensures r.Success? && callerId in ids && friendEmail.value == ids[callerId]
              && ids[callerId] !in old(users[ids[callerId]].friends) ==>
                users[ids[callerId]].friends == old(users[ids[callerId]].friends) + [ids[callerId], ids[callerId]]
    {
      if !Present(friendEmail) {
        return Failure(400, MsgAcceptFieldRequired);
      }
      var currentUser := FindById(callerId);
      if currentUser.None? {
        return Failure(404, MsgUserNotFound);
      }
      var friendRequestUser := FindOne(friendEmail.value);
      var me := currentUser.value;
      if friendEmail.value !in me.friendRequests {
        return Failure(400, MsgRequestNotFound);
      }
      if friendRequestUser.None? {
        return Failure(500, MsgNullFriends);
      }
      var friend := friendRequestUser.value;
      AcceptMakesFriends(users, me.email, friend.email);
      AcceptKeepsConsistent(users, ids, me.email, friend.email);
      if friend.email == me.email && me.email !in me.friends {
        SelfAcceptDuplicates(users, me.email);
      }
      me := me.(friendRequests := Without(me.friendRequests, friendEmail.value));
      var pushedToMine := Pushed(me.friends, friendEmail.value);
      me := me.(friends := me.friends + pushedToMine);
      var pushedToTheirs := Pushed(friend.friends, me.email);
      friend := friend.(friends := friend.friends + pushedToTheirs);
      // each save sets the reassigned list and appends what was pushed to the stored array
      users := users[me.email := users[me.email].(friendRequests := me.friendRequests,
                                                  friends := users[me.email].friends + pushedToMine)];
      users := users[friend.email := users[friend.email].(friends := users[friend.email].friends + pushedToTheirs)];
      r := Success(200, friend);
    }

    /** getFriendRequests: the caller's pending requests, newest first; `found` is the
        store's answer to the `$in` query on those emails. */
    function GetFriendRequests(callerId: UserId, found: seq<Profile>): (r: Reply<Listing>)
      reads this
      requires Consistent(users, ids)
      ensures r.Failure? <==> callerId !in ids
      ensures r.Failure? ==> r == Failure(404, MsgUserNotFound)
      ensures r.Success? ==> r.status == 200 && (r.body.NoRequests? <==> users[ids[callerId]].friendRequests == [])
      ensures r.Success? && r.body.Requests? ==>
                var pending := users[ids[callerId]].friendRequests;
                && |r.body.entries| == |pending|
                && (FetchedFrom(users, pending, found) ==>
                      forall i :: 0 <= i < |pending| ==>
                        r.body.entries[i] == ProfileByEmail(users, pending[|pending| - 1 - i]))
    {
      var user := FindById(callerId);
      if user.None? then Failure(404, MsgUserNotFound)
      else
        var pending := user.value.friendRequests;
        if |pending| == 0 then Success(200, NoRequests)
        else
          var entries := Arrange(pending, found);
          assert FetchedFrom(users, pending, found) ==>
                   forall i :: 0 <= i < |pending| ==> entries[i] == ProfileByEmail(users, pending[|pending| - 1 - i]) by {
            if FetchedFrom(users, pending, found) {
              forall i | 0 <= i < |pending| ensures entries[i] == ProfileByEmail(users, pending[|pending| - 1 - i]) {
                ArrangedAt(users, pending, found, i);
              }
            }
          }
          Success(200, Requests(entries))
    }

    /** searchFriendRequests: the users among the candidate emails in whose first name, last
        name, email or full name the term occurs literally, up to case. */
    function SearchFriendRequests(searchTerm: Option<string>, candidates: Option<seq<Email>>): (r: Reply<set<User>>)
      reads this
      ensures r.Failure? <==> !Present(searchTerm) || candidates.None?
      ensures r.Failure? ==> r == Failure(400, MsgSearchFieldsRequired)
      ensures r.Success? ==>
                && r.status == 200
                && forall u :: u in r.body <==>
                     u in users.Values && u.email in candidates.value && TermMatches(u, searchTerm.value)
    {
      if !Present(searchTerm) || candidates.None? then Failure(400, MsgSearchFieldsRequired)
      else
        var pattern := Escape(searchTerm.value);
        EscapedSearch(searchTerm.value);
        Success(200, set u | u in users.Values && u.email in candidates.value && PatternMatches(u, pattern))
    }
  }
}
