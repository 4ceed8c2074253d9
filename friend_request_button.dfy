/** `FriendRequestButton`: what the button offers for each resolved status,
    which mutation each of its handlers issues, and the `loading` flag the
    handlers hold while a mutation is in flight. */
module FriendRequestButton {
  import opened Seqs
  import opened FriendRequests

  /** The click handlers of the rendered buttons. */
  datatype Action = Connect | AcceptClick | RejectClick | CancelClick | Navigate(path: string)

  const MessagesPath := "/messages/"

  /** The rendered buttons' handlers, in order; while `loading` only the
      disabled spinner is shown, which has none. */
  function Offers(loading: bool, status: ViewStatus, userId: UserId): (r: seq<Action>)
    ensures loading ==> r == []
    ensures !loading ==> |r| >= 1
  {
    if loading then []
    else
      match status
      case AcceptedStatus => [Navigate(MessagesPath + userId)]
      case PendingSent => [CancelClick]
      case PendingReceived => [AcceptClick, RejectClick]
      case RejectedStatus => [Connect]
      case NoRequest => [Connect]
  }

  /** The mutation a handler issues: none for navigation, and none from accept,
      reject or cancel when `getRequestForUser` found no record. */
  function Issues(a: Action, request: Option<FriendRequest>, userId: UserId): (r: Option<Mutation>)
    ensures a.Navigate? ==> r.None?
    ensures a.Connect? ==> r == Some(SendRequest(userId))
    ensures !a.Navigate? && !a.Connect? ==> (r.None? <==> request.None?)
    ensures a.AcceptClick? && request.Some? ==> r == Some(AcceptRequest(request.value.row.id))
    ensures a.RejectClick? && request.Some? ==> r == Some(RejectRequest(request.value.row.id))
    ensures a.CancelClick? && request.Some? ==> r == Some(CancelRequest(request.value.row.id))
    ensures r.Some? && !a.Connect? ==> !r.value.SendRequest? && r.value.id == request.value.row.id
  {
    match a
    case Connect => Some(SendRequest(userId))
    case AcceptClick => if request.None? then None else Some(AcceptRequest(request.value.row.id))
    case RejectClick => if request.None? then None else Some(RejectRequest(request.value.row.id))
    case CancelClick => if request.None? then None else Some(CancelRequest(request.value.row.id))
    case Navigate(_) => None
  }

  /** The mutations a sequence of handlers issues, in order. */
  function IssuedBy(actions: seq<Action>, request: Option<FriendRequest>, userId: UserId): (r: seq<Mutation>)
    ensures |r| <= |actions|
    ensures forall m :: m in r ==> exists a :: a in actions && Issues(a, request, userId) == Some(m)
    ensures forall a :: a in actions && Issues(a, request, userId).Some? ==> Issues(a, request, userId).value in r
    decreases |actions|
  {
    if actions == [] then []
    else
      match Issues(actions[0], request, userId)
      case None => IssuedBy(actions[1..], request, userId)
      case Some(m) => [m] + IssuedBy(actions[1..], request, userId)
  }

  /** One handler issues its own mutation, or nothing. */
  lemma IssuedByOne(a: Action, request: Option<FriendRequest>, userId: UserId)
    ensures IssuedBy([a], request, userId) == match Issues(a, request, userId) case None => [] case Some(m) => [m]
  {
    assert [a][1..] == [];
  }

  /** Handlers issue their mutations in order: the mutations of two rows of
      buttons are those of the first row, then those of the second. */
  lemma {:induction false} IssuedByConcat(a: seq<Action>, b: seq<Action>, request: Option<FriendRequest>, userId: UserId)
    ensures IssuedBy(a + b, request, userId) == IssuedBy(a, request, userId) + IssuedBy(b, request, userId)
    decreases |a|
  {
    if a == [] {
      assert a + b == b;
    } else {
      assert (a + b)[0] == a[0];
      assert (a + b)[1..] == a[1..] + b;
      IssuedByConcat(a[1..], b, request, userId);
    }
  }

  /** Every mutation a viewer `self` can trigger from the button for `userId`. */
  function OfferedMutations(loading: bool, requests: seq<FriendRequest>, self: Option<UserId>, userId: UserId): (r: seq<Mutation>)
    ensures loading ==> r == []
    ensures forall m :: m in r ==>
              (m == SendRequest(userId) || (!m.SendRequest? && RequestForUser(requests, userId, self).Some?
                                             && m.id == RequestForUser(requests, userId, self).value.row.id))
  {
    IssuedBy(Offers(loading, RequestStatus(requests, userId, self), userId), RequestForUser(requests, userId, self), userId)
  }

  /** What each status lets the viewer do. `accepted` offers no mutation (only
      navigation to the conversation), `pending_sent` only cancelling the
      matched request the viewer sent, `pending_received` accepting or
      rejecting the matched request the viewer received, and `rejected` and
      `none` both offer a new request. While loading nothing is offered. */
  lemma OffersByStatus(requests: seq<FriendRequest>, self: Option<UserId>, userId: UserId)
    ensures OfferedMutations(true, requests, self, userId) == []
    ensures var status := RequestStatus(requests, userId, self);
            var q := RequestForUser(requests, userId, self);
            var offered := OfferedMutations(false, requests, self, userId);
            && (status == AcceptedStatus ==>
                  offered == [] && Offers(false, status, userId) == [Navigate(MessagesPath + userId)])
            && (status == PendingSent ==>
                  && q.Some? && offered == [CancelRequest(q.value.row.id)]
                  && q.value.row.status == Pending && q.value.row.sender == self.value)
            && (status == PendingReceived ==>
                  && q.Some? && offered == [AcceptRequest(q.value.row.id), RejectRequest(q.value.row.id)]
                  && q.value.row.status == Pending && q.value.row.receiver == self.value)
            && (status == RejectedStatus || status == NoRequest ==> offered == [SendRequest(userId)])
  {
    var status := RequestStatus(requests, userId, self);
    var actions := Offers(false, status, userId);
    if status == PendingReceived {
      var q := RequestForUser(requests, userId, self);
      assert actions[1..] == [RejectClick];
      assert actions[1..][1..] == [];
      assert IssuedBy(actions[1..], q, userId) == [RejectRequest(q.value.row.id)];
      assert Involves(q.value.row, self.value);
    } else {
      assert actions[1..] == [];
    }
  }

  /** Every request in the viewer's cache is one of the table's rows. */
  lemma FoundRowIsStored(t: Table, self: UserId, p: map<UserId, Profile>, q: FriendRequest)
    requires TableValid(t)
    requires q in View(Scan(t), self, p)
    ensures q.row.id in t.rows && t.rows[q.row.id] == q.row
  {
    var f := Filter(Scan(t), InvolvesUser(self));
    var v := View(Scan(t), self, p);
    var i :| 0 <= i < |v| && v[i] == q;
    assert f[i] in f;
    assert f[i] in Scan(t);
  }

  /** When the viewer finds no request for `other`, no row joins them. */
  lemma NotFoundMeansNoRow(t: Table, self: UserId, other: UserId, p: map<UserId, Profile>)
    requires TableValid(t) && self != other
    requires RequestForUser(View(Scan(t), self, p), other, Some(self)).None?
    ensures forall id :: id in t.rows ==> !Between(t.rows[id], self, other)
  {
    var s := Scan(t);
    var f := Filter(s, InvolvesUser(self));
    var v := View(s, self, p);
    forall id | id in t.rows ensures !Between(t.rows[id], self, other) {
      var row := t.rows[id];
      if Involves(row, self) {
        var k :| 0 <= k < |t.order| && t.order[k] == id;
        assert s[k] == row && s[k] in s;
        assert row in f;
        var i :| 0 <= i < |f| && f[i] == row;
        assert !Matches(v[i], other, Some(self));
      }
    }
  }

  /** From `pending_received` the viewer may accept or reject the matched
      request; either is then seen by both participants. */
  lemma OutcomeFromPendingReceived(t: Table, self: UserId, other: UserId, m: Mutation,
                                   ps: map<UserId, Profile>, po: map<UserId, Profile>)
    requires TableValid(t) && PairUnique(t) && self != other
    requires RequestStatus(View(Scan(t), self, ps), other, Some(self)) == PendingReceived
    requires m in OfferedMutations(false, View(Scan(t), self, ps), Some(self), other)
    ensures var t' := Written(t, Some(self), m);
            var settled := if m.AcceptRequest? then AcceptedStatus else RejectedStatus;
            && (m.AcceptRequest? || m.RejectRequest?)
            && RequestStatus(View(Scan(t'), self, ps), other, Some(self)) == settled
            && RequestStatus(View(Scan(t'), other, po), self, Some(other)) == settled
  {
    var q := RequestForUser(View(Scan(t), self, ps), other, Some(self)).value;
    OffersByStatus(View(Scan(t), self, ps), Some(self), other);
    assert m == AcceptRequest(q.row.id) || m == RejectRequest(q.row.id);
    FoundRowIsStored(t, self, ps, q);
    var st := if m.AcceptRequest? then Accepted else Rejected;
    assert Written(t, Some(self), m) == StatusSet(t, q.row.id, st);
    SettledSeenByBoth(t, q.row.id, st, self, other, ps, po);
  }

  /** From `pending_sent` the viewer may only cancel, which clears both sides. */
  lemma OutcomeFromPendingSent(t: Table, self: UserId, other: UserId, m: Mutation,
                               ps: map<UserId, Profile>, po: map<UserId, Profile>)
    requires TableValid(t) && PairUnique(t) && self != other
    requires RequestStatus(View(Scan(t), self, ps), other, Some(self)) == PendingSent
    requires m in OfferedMutations(false, View(Scan(t), self, ps), Some(self), other)
    ensures var t' := Written(t, Some(self), m);
            && m.CancelRequest?
            && RequestStatus(View(Scan(t'), self, ps), other, Some(self)) == NoRequest
            && RequestStatus(View(Scan(t'), other, po), self, Some(other)) == NoRequest
  {
    var q := RequestForUser(View(Scan(t), self, ps), other, Some(self)).value;
    OffersByStatus(View(Scan(t), self, ps), Some(self), other);
    FoundRowIsStored(t, self, ps, q);
    CancelClearsBoth(t, q.row.id, self, other, ps, po);
  }

  /** From `none` the viewer may only send, which shows as pending on both sides. */
  lemma OutcomeFromNone(t: Table, self: UserId, other: UserId, m: Mutation,
                        ps: map<UserId, Profile>, po: map<UserId, Profile>)
    requires TableValid(t) && self != other
    requires RequestStatus(View(Scan(t), self, ps), other, Some(self)) == NoRequest
    requires m in OfferedMutations(false, View(Scan(t), self, ps), Some(self), other)
    ensures var t' := Written(t, Some(self), m);
            && m == SendRequest(other)
            && RequestStatus(View(Scan(t'), self, ps), other, Some(self)) == PendingSent
            && RequestStatus(View(Scan(t'), other, po), self, Some(other)) == PendingReceived
            && (PairUnique(t) ==> PairUnique(t'))
  {
    OffersByStatus(View(Scan(t), self, ps), Some(self), other);
    NotFoundMeansNoRow(t, self, other, ps);
    SendShowsPending(t, self, other, ps, po);
  }

  /** From `rejected` the button offers a new request, but the new row goes
      behind the rejected one, which stays the first match: both sides keep
      seeing `rejected`, and the table now holds two rows for the pair. */
  lemma OutcomeFromRejected(t: Table, self: UserId, other: UserId, m: Mutation,
                            ps: map<UserId, Profile>, po: map<UserId, Profile>)
    requires TableValid(t) && self != other
    requires RequestStatus(View(Scan(t), self, ps), other, Some(self)) == RejectedStatus
    requires m in OfferedMutations(false, View(Scan(t), self, ps), Some(self), other)
    ensures var t' := Written(t, Some(self), m);
            && m == SendRequest(other)
            && RequestStatus(View(Scan(t'), self, ps), other, Some(self)) == RejectedStatus
            && RequestStatus(View(Scan(t'), other, po), self, Some(other)) == RejectedStatus
            && !PairUnique(t')
  {
    var q := RequestForUser(View(Scan(t), self, ps), other, Some(self)).value;
    OffersByStatus(View(Scan(t), self, ps), Some(self), other);
    FoundRowIsStored(t, self, ps, q);
    var t' := Inserted(t, self, other);
    InsertBehindFirstMatch(t, self, other, self, other, ps);
    MatchedRowMirror(Scan(t), self, other, ps, po);
    InsertBehindFirstMatch(t, other, self, self, other, po);
    assert t'.rows[t.nextId] == Row(t.nextId, self, other, Pending);
    assert t'.rows[q.row.id] == q.row;
    assert Between(t'.rows[t.nextId], t'.rows[q.row.id].sender, t'.rows[q.row.id].receiver);
  }

  /** The button for `userId`, with its own `loading` flag. */
  class Button {
    const userId: UserId
    const hook: FriendRequestsHook
    var loading: bool

    constructor (userId: UserId, hook: FriendRequestsHook)
      ensures this.userId == userId && this.hook == hook && !loading
    {
      this.userId := userId;
      this.hook := hook;
      loading := false;
    }

    function Status(): ViewStatus
      reads hook
    {
      RequestStatus(hook.requests, userId, hook.user)
    }

    function Request(): Option<FriendRequest>
      reads hook
    {
      RequestForUser(hook.requests, userId, hook.user)
    }

    /** The handlers of what is rendered now. */
    function Rendered(): seq<Action>
      reads this, hook
    {
      Offers(loading, Status(), userId)
    }

    /** Runs the handler of a clicked button: `handleSendRequest`,
        `handleAccept`, `handleReject`, `handleCancel` or the navigation.
        `busy` is the value `loading` has while the mutation is awaited, and
        `err` the hook's answer, which picks the error or the success toast.
        An issued mutation leaves the hook as the hook's own method does:
        the write applied and the cache refreshed from the new table, or
        everything kept when the write fails. */
    method Click(a: Action, writeFails: bool, queryFails: bool, profilesFail: bool)
      returns (ghost busy: bool, err: Option<Error>)
      requires hook.store.Valid()
      modifies this, hook, hook.store
      ensures hook.store.Valid()
      ensures var m := Issues(a, old(Request()), userId);
              && (m.None? ==> !busy && err.None? && unchanged(this, hook, hook.store))
              && (m.Some? ==> busy && !loading)
              && (m.Some? && m.value.SendRequest? && hook.user.None? ==>
                    err == Some(NotAuthenticated) && unchanged(hook, hook.store))
              && (m.Some? && (hook.user.Some? || !m.value.SendRequest?) ==>
                    hook.Wrote(m.value, writeFails, queryFails, profilesFail, err))
    {
      var request := RequestForUser(hook.requests, userId, hook.user);
      busy := false;
      err := None;
      match a {
        case Navigate(_) =>
        case Connect =>
          loading := true;
          busy := loading;
          err := hook.SendRequest(userId, writeFails, queryFails, profilesFail);
          loading := false;
        case AcceptClick =>
          if request.None? {
            return;
          }
          loading := true;
          busy := loading;
          err := hook.AcceptRequest(request.value.row.id, writeFails, queryFails, profilesFail);
          loading := false;
        case RejectClick =>
          if request.None? {
            return;
          }
          loading := true;
          busy := loading;
          err := hook.RejectRequest(request.value.row.id, writeFails, queryFails, profilesFail);
          loading := false;
        case CancelClick =>
          if request.None? {
            return;
          }
          loading := true;
          busy := loading;
          err := hook.CancelRequest(request.value.row.id, writeFails, queryFails, profilesFail);
          loading := false;
      }
    }
  }
}
