/** The friend-request relationship of `useFriendRequests`: the remote
    `friend_requests` table, the per-session cache a refresh rebuilds from it,
    the status resolver over that cache, and the four mutations. */
module FriendRequests {
  import opened Seqs

  type UserId = string
  type RequestId = nat

  datatype RowStatus = Pending | Accepted | Rejected

  /** A row of the `friend_requests` table. */
  datatype Row = Row(id: RequestId, sender: UserId, receiver: UserId, status: RowStatus)

  datatype Profile = Profile(fullName: Option<string>, avatarUrl: Option<string>)

  /** A cached request: the row plus the profiles of its two participants. */
  datatype FriendRequest = FriendRequest(row: Row, senderProfile: Option<Profile>, receiverProfile: Option<Profile>)

  /** The viewer-relative status `getRequestStatus` returns. */
  datatype ViewStatus = NoRequest | PendingSent | PendingReceived | AcceptedStatus | RejectedStatus

  datatype Error = NotAuthenticated | DatabaseError

  /** The mutations the hook exposes. */
  datatype Mutation =
    | SendRequest(receiver: UserId)
    | AcceptRequest(id: RequestId)
    | RejectRequest(id: RequestId)
    | CancelRequest(id: RequestId)

  // ---------------------------------------------------------------------
  // The remote table

  /** The table as a map from id to row, with the order its rows are scanned in
      (insertion order) and the id the next insert receives. */
  datatype Table = Table(rows: map<RequestId, Row>, order: seq<RequestId>, nextId: RequestId)

  predicate TableValid(t: Table) {
    && (forall i :: 0 <= i < |t.order| ==> t.order[i] in t.rows)
    && (forall id :: id in t.rows ==> id in t.order)
    && NoDuplicates(t.order)
    && (forall id :: id in t.rows ==> id < t.nextId && t.rows[id].id == id)
  }

  const EmptyTable := Table(map[], [], 0)

  /** The rows in scan order. */
  function Scan(t: Table): (s: seq<Row>)
    requires TableValid(t)
    ensures |s| == |t.order|
    ensures forall i :: 0 <= i < |s| ==> s[i] == t.rows[t.order[i]] && s[i].id == t.order[i]
  {
    seq(|t.order|, i requires 0 <= i < |t.order| => t.rows[t.order[i]])
  }

  /** `insert({sender_id, receiver_id})`; the store's default status is `pending`. */
  function Inserted(t: Table, sender: UserId, receiver: UserId): (r: Table)
    requires TableValid(t)
    ensures TableValid(r)
    ensures r.rows.Keys == t.rows.Keys + {t.nextId} && t.nextId !in t.rows
    ensures Scan(r) == Scan(t) + [Row(t.nextId, sender, receiver, Pending)]
  {
    var row := Row(t.nextId, sender, receiver, Pending);
    var r := Table(t.rows[t.nextId := row], t.order + [t.nextId], t.nextId + 1);
    NoDuplicatesAppend(t.order, t.nextId);
    assert Scan(r) == Scan(t) + [row];
    r
  }

  /** `update({status}).eq('id', id)`: an id that matches no row changes nothing. */
  function StatusSet(t: Table, id: RequestId, st: RowStatus): (r: Table)
    requires TableValid(t)
    ensures TableValid(r) && r.order == t.order && r.rows.Keys == t.rows.Keys
    ensures forall k :: k in t.rows ==> r.rows[k] == if k == id then t.rows[k].(status := st) else t.rows[k]
  {
    if id in t.rows then t.(rows := t.rows[id := t.rows[id].(status := st)]) else t
  }

  /** The ids other than `id`, and the rows whose id is not `id`: what a delete keeps. */
  function OtherId(id: RequestId): RequestId -> bool {
    (k: RequestId) => k != id
  }

  function OtherRow(id: RequestId): Row -> bool {
    (x: Row) => x.id != id
  }

  /** The rows of `rows` at the ids `ks`, in that order. */
  function RowsAt(rows: map<RequestId, Row>, ks: seq<RequestId>): seq<Row>
    requires forall k :: k in ks ==> k in rows
  {
    if ks == [] then [] else [rows[ks[0]]] + RowsAt(rows, ks[1..])
  }

  lemma {:induction false} RowsAtIndex(rows: map<RequestId, Row>, ks: seq<RequestId>)
    requires forall k :: k in ks ==> k in rows
    ensures |RowsAt(rows, ks)| == |ks|
    ensures forall i :: 0 <= i < |ks| ==> RowsAt(rows, ks)[i] == rows[ks[i]]
    decreases |ks|
  {
    if ks != [] {
      RowsAtIndex(rows, ks[1..]);
    }
  }

  /** Dropping an id from the scan order drops exactly the row of that id from the scan. */
  lemma {:induction false} RowsAtFiltered(rows: map<RequestId, Row>, ks: seq<RequestId>, id: RequestId)
    requires forall k :: k in ks ==> k in rows && rows[k].id == k
    ensures forall k :: k in Filter(ks, OtherId(id)) ==> k in rows
    ensures RowsAt(rows, Filter(ks, OtherId(id))) == Filter(RowsAt(rows, ks), OtherRow(id))
    decreases |ks|
  {
    if ks != [] {
      var k := ks[0];
      var kept := Filter(ks[1..], OtherId(id));
      var all := RowsAt(rows, ks);
      RowsAtFiltered(rows, ks[1..], id);
      assert all[0] == rows[k] && all[1..] == RowsAt(rows, ks[1..]);
      if k != id {
        assert Filter(ks, OtherId(id)) == [k] + kept;
        assert ([k] + kept)[1..] == kept;
      } else {
        assert Filter(ks, OtherId(id)) == kept;
      }
    }
  }

  /** Two maps that agree on `ks` give the same rows at `ks`. */
  lemma {:induction false} RowsAtAgree(m1: map<RequestId, Row>, m2: map<RequestId, Row>, ks: seq<RequestId>)
    requires forall k :: k in ks ==> k in m1 && k in m2 && m1[k] == m2[k]
    ensures RowsAt(m1, ks) == RowsAt(m2, ks)
    decreases |ks|
  {
    if ks != [] {
      RowsAtAgree(m1, m2, ks[1..]);
    }
  }

  /** The scan of a table lists the rows at its scan order. */
  lemma ScanIsRowsAt(t: Table)
    requires TableValid(t)
    ensures Scan(t) == RowsAt(t.rows, t.order)
  {
    RowsAtIndex(t.rows, t.order);
  }

  /** The rows a delete of `id` keeps, in the order it keeps them, are the scan without that row. */
  lemma ScanWithout(t: Table, id: RequestId)
    requires TableValid(t)
    ensures forall k :: k in Filter(t.order, OtherId(id)) ==> k in t.rows - {id}
    ensures RowsAt(t.rows - {id}, Filter(t.order, OtherId(id))) == Filter(Scan(t), OtherRow(id))
  {
    var order := Filter(t.order, OtherId(id));
    var kept := t.rows - {id};
    assert forall k :: k in order ==> k in kept && kept[k] == t.rows[k] by {
      assert forall k :: k in order ==> k in t.order && OtherId(id)(k);
    }
    assert RowsAt(t.rows, order) == Filter(RowsAt(t.rows, t.order), OtherRow(id)) by {
      RowsAtFiltered(t.rows, t.order, id);
    }
    assert RowsAt(kept, order) == RowsAt(t.rows, order) by {
      RowsAtAgree(kept, t.rows, order);
    }
    ScanIsRowsAt(t);
  }

  /** `delete().eq('id', id)`: the other rows stay, unchanged and in their scan order. */
  function Deleted(t: Table, id: RequestId): (r: Table)
    requires TableValid(t)
    ensures TableValid(r)
    ensures r.rows.Keys == t.rows.Keys - {id}
    ensures forall k :: k in r.rows ==> r.rows[k] == t.rows[k]
    ensures Scan(r) == Filter(Scan(t), OtherRow(id))
  {
    var order := Filter(t.order, OtherId(id));
    FilterNoDuplicates(t.order, OtherId(id));
    ScanWithout(t, id);
    var r := Table(t.rows - {id}, order, t.nextId);
    assert Scan(r) == Filter(Scan(t), OtherRow(id)) by {
      ScanIsRowsAt(r);
    }
    r
  }

  /** What a successful write of `m` does to the table; `sendRequest` writes nothing without a user. */
  function Written(t: Table, user: Option<UserId>, m: Mutation): (r: Table)
    requires TableValid(t)
    ensures TableValid(r)
  {
    match m
    case SendRequest(receiver) => if user.None? then t else Inserted(t, user.value, receiver)
    case AcceptRequest(id) => StatusSet(t, id, Accepted)
    case RejectRequest(id) => StatusSet(t, id, Rejected)
    case CancelRequest(id) => Deleted(t, id)
  }

  // ---------------------------------------------------------------------
  // Refresh: the select, the batched profile lookup, the cache

  predicate Involves(r: Row, u: UserId) {
    r.sender == u || r.receiver == u
  }

  /** The two participants are `a` and `b`, in either direction. */
  predicate Between(r: Row, a: UserId, b: UserId) {
    (r.sender == a && r.receiver == b) || (r.sender == b && r.receiver == a)
  }

  /** The filter `sender_id.eq.u,receiver_id.eq.u` of the select. */
  function InvolvesUser(u: UserId): Row -> bool {
    (r: Row) => Involves(r, u)
  }

  /** Every sender and receiver id of the selected rows: the set the profile lookup is keyed by. */
  function Participants(data: seq<Row>): (ids: set<UserId>)
    ensures forall x :: x in data ==> x.sender in ids && x.receiver in ids
  {
    (set r | r in data :: r.sender) + (set r | r in data :: r.receiver)
  }

  /** Every participant id comes from a selected row. */
  lemma ParticipantsAreInvolved(data: seq<Row>, u: UserId)
    requires u in Participants(data)
    ensures exists x :: x in data && Involves(x, u)
  {
  }

  /** `.in('user_id', ids)`: the profiles whose user id is among `ids`. */
  function ProfilesIn(profiles: map<UserId, Profile>, ids: set<UserId>): (r: map<UserId, Profile>)
    ensures r.Keys == profiles.Keys * ids
    ensures forall u :: u in r ==> r[u] == profiles[u]
  {
    map u | u in profiles && u in ids :: profiles[u]
  }

  /** One row with `profileMap.get` of its sender and of its receiver. */
  function Enriched(r: Row, profiles: map<UserId, Profile>): (q: FriendRequest)
    ensures q.row == r
    ensures q.senderProfile.Some? <==> r.sender in profiles
    ensures q.senderProfile.Some? ==> q.senderProfile.value == profiles[r.sender]
    ensures q.receiverProfile.Some? <==> r.receiver in profiles
    ensures q.receiverProfile.Some? ==> q.receiverProfile.value == profiles[r.receiver]
  {
    FriendRequest(r, Get(profiles, r.sender), Get(profiles, r.receiver))
  }

  /** `data.map(req => ({...req, sender_profile, receiver_profile}))`. */
  function Enrich(data: seq<Row>, profiles: map<UserId, Profile>): (r: seq<FriendRequest>)
    ensures |r| == |data|
    ensures forall i :: 0 <= i < |r| ==> r[i] == Enriched(data[i], profiles)
  {
    seq(|data|, i requires 0 <= i < |data| => Enriched(data[i], profiles))
  }

  /** The cache a successful refresh for `self` builds from rows scanned in this order. */
  function View(scan: seq<Row>, self: UserId, profiles: map<UserId, Profile>): (r: seq<FriendRequest>)
    ensures forall q :: q in r ==> q.row in scan && Involves(q.row, self)
    ensures forall x :: x in scan && Involves(x, self) ==> Enriched(x, profiles) in r
  {
    var data := Filter(scan, InvolvesUser(self));
    var r := Enrich(data, profiles);
    assert forall q :: q in r ==> q.row in data by {
      forall q | q in r ensures q.row in data {
        var i :| 0 <= i < |r| && r[i] == q;
        assert q.row == data[i];
      }
    }
    assert forall x :: x in data ==> Enriched(x, profiles) in r by {
      forall x | x in data ensures Enriched(x, profiles) in r {
        var i :| 0 <= i < |data| && data[i] == x;
        assert r[i] == Enriched(x, profiles);
      }
    }
    r
  }

  /** Looking profiles up only for the participants gives every request the
      profiles a lookup over all of them would. */
  lemma ProfileLookupIsBatched(data: seq<Row>, profiles: map<UserId, Profile>)
    ensures Enrich(data, ProfilesIn(profiles, Participants(data))) == Enrich(data, profiles)
  {
    var ids := Participants(data);
    forall i | 0 <= i < |data|
      ensures Enriched(data[i], ProfilesIn(profiles, ids)) == Enriched(data[i], profiles)
    {
      assert data[i] in data;
      assert data[i].sender in ids && data[i].receiver in ids;
    }
  }

  lemma {:induction false} ViewCons(x: Row, rest: seq<Row>, self: UserId, profiles: map<UserId, Profile>)
    ensures View([x] + rest, self, profiles)
         == (if Involves(x, self) then [Enriched(x, profiles)] else []) + View(rest, self, profiles)
  {
    var s := [x] + rest;
    var head := if Involves(x, self) then [x] else [];
    var tail := Filter(rest, InvolvesUser(self));
    assert Filter(s, InvolvesUser(self)) == head + tail by {
      assert s[0] == x && s[1..] == rest;
    }
    assert Enrich(head + tail, profiles) == Enrich(head, profiles) + Enrich(tail, profiles) by {
      EnrichConcat(head, tail, profiles);
    }
    assert Enrich(head, profiles) == if Involves(x, self) then [Enriched(x, profiles)] else [];
  }

  // ---------------------------------------------------------------------
  // Queries over the cache

  /** The predicate shared by `getRequestStatus` and `getRequestForUser`. */
  predicate Matches(q: FriendRequest, target: UserId, self: Option<UserId>) {
    Involves(q.row, target) && self.Some? && Involves(q.row, self.value)
  }

  function MatchesFor(target: UserId, self: Option<UserId>): FriendRequest -> bool {
    (q: FriendRequest) => Matches(q, target, self)
  }

  /** `getRequestForUser(target)`: the first cached request between the viewer and `target`. */
  function RequestForUser(requests: seq<FriendRequest>, target: UserId, self: Option<UserId>): (r: Option<FriendRequest>)
    ensures self.None? ==> r.None?
    ensures r.None? <==> forall i :: 0 <= i < |requests| ==> !Matches(requests[i], target, self)
    ensures r.Some? ==> r.value in requests && Matches(r.value, target, self)
    ensures r.Some? ==> exists i :: 0 <= i < |requests| && requests[i] == r.value
                                 && forall j :: 0 <= j < i ==> !Matches(requests[j], target, self)
    ensures r.Some? && target != self.value ==> Between(r.value.row, self.value, target)
  {
    FindFirst(requests, MatchesFor(target, self))
  }

  /** The status a found request has for the viewer. */
  function Resolve(q: FriendRequest, self: Option<UserId>): (v: ViewStatus)
    ensures v != NoRequest
    ensures v == AcceptedStatus <==> q.row.status == Accepted
    ensures v == RejectedStatus <==> q.row.status == Rejected
    ensures v == PendingSent <==> q.row.status == Pending && self.Some? && q.row.sender == self.value
    ensures v == PendingReceived <==> q.row.status == Pending && !(self.Some? && q.row.sender == self.value)
  {
    match q.row.status
    case Accepted => AcceptedStatus
    case Rejected => RejectedStatus
    case Pending => if self.Some? && q.row.sender == self.value then PendingSent else PendingReceived
  }

  /** `getRequestStatus(target)`. */
  function RequestStatus(requests: seq<FriendRequest>, target: UserId, self: Option<UserId>): (r: ViewStatus)
    ensures var q := RequestForUser(requests, target, self);
      && (r == NoRequest <==> q.None?)
      && (r == AcceptedStatus <==> q.Some? && q.value.row.status == Accepted)
      && (r == RejectedStatus <==> q.Some? && q.value.row.status == Rejected)
      && (r == PendingSent <==> q.Some? && q.value.row.status == Pending && q.value.row.sender == self.value)
      && (r == PendingReceived <==> q.Some? && q.value.row.status == Pending && q.value.row.sender != self.value)
  {
    match RequestForUser(requests, target, self)
    case None => NoRequest
    case Some(q) => Resolve(q, self)
  }

  predicate IsPendingFor(q: FriendRequest, self: Option<UserId>) {
    self.Some? && q.row.receiver == self.value && q.row.status == Pending
  }

  /** `pendingReceivedRequests`: the cached requests awaiting the viewer's answer. */
  function PendingReceivedRequests(requests: seq<FriendRequest>, self: Option<UserId>): (r: seq<FriendRequest>)
    ensures forall q :: multiset(r)[q] == if IsPendingFor(q, self) then multiset(requests)[q] else 0
  {
    FilterMultiset(requests, PendingFor(self));
    Filter(requests, PendingFor(self))
  }

  function PendingFor(self: Option<UserId>): FriendRequest -> bool {
    (q: FriendRequest) => IsPendingFor(q, self)
  }

  /** `pendingReceivedRequests` keeps cache order: it distributes over concatenation. */
  lemma PendingReceivedInOrder(a: seq<FriendRequest>, b: seq<FriendRequest>, self: Option<UserId>)
    ensures PendingReceivedRequests(a + b, self) == PendingReceivedRequests(a, self) + PendingReceivedRequests(b, self)
  {
    FilterConcat(a, b, PendingFor(self));
  }

  /** The other participant of a row that involves `self`. */
  function Counterparty(r: Row, self: UserId): (c: UserId)
    ensures Involves(r, self) ==> Between(r, self, c)
  {
    if r.sender == self then r.receiver else r.sender
  }

  function IsAccepted(): FriendRequest -> bool {
    (q: FriendRequest) => q.row.status == Accepted
  }

  /** The other participant of each request, in order. */
  function Counterparties(qs: seq<FriendRequest>, self: UserId): (r: seq<UserId>)
    ensures |r| == |qs|
    ensures forall i :: 0 <= i < |r| ==> r[i] == Counterparty(qs[i].row, self)
  {
    seq(|qs|, i requires 0 <= i < |qs| => Counterparty(qs[i].row, self))
  }

  lemma CounterpartiesConcat(x: seq<FriendRequest>, y: seq<FriendRequest>, self: UserId)
    ensures Counterparties(x + y, self) == Counterparties(x, self) + Counterparties(y, self)
  {
    var l, r := Counterparties(x + y, self), Counterparties(x, self) + Counterparties(y, self);
    forall i | 0 <= i < |l| ensures l[i] == r[i] {
      if i < |x| {
        assert (x + y)[i] == x[i];
      } else {
        assert (x + y)[i] == y[i - |x|];
      }
    }
  }

  /** `friends`: the other participant of every accepted request, in cache order. */
  function Friends(requests: seq<FriendRequest>, self: UserId): (r: seq<UserId>)
    ensures forall f :: f in r <==> exists q :: q in requests && q.row.status == Accepted && Counterparty(q.row, self) == f
    ensures |r| == |Filter(requests, IsAccepted())|
    ensures forall i :: 0 <= i < |r| ==> r[i] == Counterparty(Filter(requests, IsAccepted())[i].row, self)
  {
    var accepted := Filter(requests, IsAccepted());
    var r := Counterparties(accepted, self);
    assert forall f :: f in r ==> exists q :: q in requests && q.row.status == Accepted && Counterparty(q.row, self) == f by {
      forall f | f in r ensures exists q :: q in requests && q.row.status == Accepted && Counterparty(q.row, self) == f {
        var i :| 0 <= i < |r| && r[i] == f;
        assert accepted[i] in accepted;
      }
    }
    assert forall q :: q in requests && q.row.status == Accepted ==> Counterparty(q.row, self) in r by {
      forall q | q in requests && q.row.status == Accepted ensures Counterparty(q.row, self) in r {
        assert q in accepted;
        var i :| 0 <= i < |accepted| && accepted[i] == q;
        assert r[i] == Counterparty(q.row, self);
      }
    }
    r
  }

  /** `friends` keeps cache order: the friends of a concatenation are those of
      the first part followed by those of the second. */
  lemma FriendsInOrder(a: seq<FriendRequest>, b: seq<FriendRequest>, self: UserId)
    ensures Friends(a + b, self) == Friends(a, self) + Friends(b, self)
  {
    FilterConcat(a, b, IsAccepted());
    CounterpartiesConcat(Filter(a, IsAccepted()), Filter(b, IsAccepted()), self);
  }

  /** Swaps the direction of a pending status. */
  function Mirror(s: ViewStatus): ViewStatus {
    match s
    case PendingSent => PendingReceived
    case PendingReceived => PendingSent
    case _ => s
  }

  // ---------------------------------------------------------------------
  // Two viewers of one table

  /** One step of the search for `b` in `a`'s cache: the first scanned row
      decides when it is between `a` and `b`, else the search goes on. */
  lemma FindStep(x: Row, rest: seq<Row>, a: UserId, b: UserId, p: map<UserId, Profile>)
    requires a != b
    ensures RequestForUser(View([x] + rest, a, p), b, Some(a))
         == if Between(x, a, b) then Some(Enriched(x, p)) else RequestForUser(View(rest, a, p), b, Some(a))
  {
    ViewCons(x, rest, a, p);
    var q := Enriched(x, p);
    if Involves(x, a) {
      FindFirstCons(q, View(rest, a, p), MatchesFor(b, Some(a)));
      assert Matches(q, b, Some(a)) == Between(x, a, b);
    } else {
      assert View([x] + rest, a, p) == View(rest, a, p);
      assert !Between(x, a, b);
    }
  }

  /** Viewer `a` looking for `b` and viewer `b` looking for `a`, each in the
      cache a refresh builds from the same scan, find the same row. */
  lemma {:induction false} MatchedRowMirror(scan: seq<Row>, a: UserId, b: UserId,
                                            pa: map<UserId, Profile>, pb: map<UserId, Profile>)
    requires a != b
    ensures var qa := RequestForUser(View(scan, a, pa), b, Some(a));
            var qb := RequestForUser(View(scan, b, pb), a, Some(b));
            && qa.Some? == qb.Some?
            && (qa.Some? ==> qa.value.row == qb.value.row && Between(qa.value.row, a, b))
    decreases |scan|
  {
    if scan == [] {
      assert View(scan, a, pa) == [] && View(scan, b, pb) == [];
    } else {
      var x, rest := scan[0], scan[1..];
      assert scan == [x] + rest;
      FindStep(x, rest, a, b, pa);
      FindStep(x, rest, b, a, pb);
      MatchedRowMirror(rest, a, b, pa, pb);
    }
  }

  /** What `a` sees toward `b` is the mirror of what `b` sees toward `a`:
      `pending_sent` against `pending_received`, and the same `accepted`,
      `rejected` or `none`. */
  lemma StatusMirror(scan: seq<Row>, a: UserId, b: UserId, pa: map<UserId, Profile>, pb: map<UserId, Profile>)
    requires a != b
    ensures RequestStatus(View(scan, a, pa), b, Some(a)) == Mirror(RequestStatus(View(scan, b, pb), a, Some(b)))
  {
    MatchedRowMirror(scan, a, b, pa, pb);
  }

  /** When exactly one scanned row is between `a` and `b`, that row is the one `a` finds. */
  lemma {:induction false} UniqueMatchInScan(scan: seq<Row>, a: UserId, b: UserId, k: nat, p: map<UserId, Profile>)
    requires a != b && k < |scan| && Between(scan[k], a, b)
    requires forall j :: 0 <= j < |scan| && j != k ==> !Between(scan[j], a, b)
    ensures RequestForUser(View(scan, a, p), b, Some(a)) == Some(Enriched(scan[k], p))
    decreases |scan|
  {
    var x, rest := scan[0], scan[1..];
    assert scan == [x] + rest;
    FindStep(x, rest, a, b, p);
    if k > 0 {
      UniqueMatchInScan(rest, a, b, k - 1, p);
    }
  }

  /** With no row between `a` and `b`, `a` finds nothing for `b`. */
  lemma NoMatchInScan(scan: seq<Row>, a: UserId, b: UserId, p: map<UserId, Profile>)
    requires a != b
    requires forall j :: 0 <= j < |scan| ==> !Between(scan[j], a, b)
    ensures RequestForUser(View(scan, a, p), b, Some(a)) == None
  {
    var f := Filter(scan, InvolvesUser(a));
    var v := View(scan, a, p);
    forall i | 0 <= i < |v| ensures !Matches(v[i], b, Some(a)) {
      assert f[i] in f;
    }
  }

  /** At most one row per unordered pair of users. The hook does not enforce
      this; it is an assumption about the store, used only where stated. */
  predicate PairUnique(t: Table) {
    forall i, j :: i in t.rows && j in t.rows && Between(t.rows[i], t.rows[j].sender, t.rows[j].receiver) ==> i == j
  }

  /** In a pair-unique table the one row between `a` and `b` is what `a` finds. */
  lemma FoundInTable(t: Table, a: UserId, b: UserId, id: RequestId, p: map<UserId, Profile>)
    requires TableValid(t) && PairUnique(t) && a != b
    requires id in t.rows && Between(t.rows[id], a, b)
    ensures RequestForUser(View(Scan(t), a, p), b, Some(a)) == Some(Enriched(t.rows[id], p))
  {
    var s := Scan(t);
    var k :| 0 <= k < |t.order| && t.order[k] == id;
    forall j | 0 <= j < |s| && j != k ensures !Between(s[j], a, b) {
      assert t.order[j] != id;
    }
    UniqueMatchInScan(s, a, b, k, p);
  }

  lemma AbsentInTable(t: Table, a: UserId, b: UserId, p: map<UserId, Profile>)
    requires TableValid(t) && a != b
    requires forall id :: id in t.rows ==> !Between(t.rows[id], a, b)
    ensures RequestForUser(View(Scan(t), a, p), b, Some(a)) == None
  {
    NoMatchInScan(Scan(t), a, b, p);
  }

  /** In a pair-unique table the resolved request, hence the status, does not
      depend on the order the store returns its rows in. */
  lemma RequestIgnoresScanOrder(t1: Table, t2: Table, a: UserId, b: UserId, p: map<UserId, Profile>)
    requires TableValid(t1) && TableValid(t2) && t1.rows == t2.rows
    requires PairUnique(t1) && a != b
    ensures RequestForUser(View(Scan(t1), a, p), b, Some(a)) == RequestForUser(View(Scan(t2), a, p), b, Some(a))
  {
    if id :| id in t1.rows && Between(t1.rows[id], a, b) {
      FoundInTable(t1, a, b, id, p);
      FoundInTable(t2, a, b, id, p);
    } else {
      AbsentInTable(t1, a, b, p);
      AbsentInTable(t2, a, b, p);
    }
  }

  /** A status change touches no participant, so pair-uniqueness survives it. */
  lemma StatusSetKeepsPairUnique(t: Table, id: RequestId, st: RowStatus)
    requires TableValid(t) && PairUnique(t)
    ensures PairUnique(StatusSet(t, id, st))
  {
    var r := StatusSet(t, id, st);
    forall i, j | i in r.rows && j in r.rows && Between(r.rows[i], r.rows[j].sender, r.rows[j].receiver) ensures i == j {
      assert Between(t.rows[i], t.rows[j].sender, t.rows[j].receiver);
    }
  }

  /** Accepting or rejecting the pair's row is seen by both participants. */
  lemma SettledSeenByBoth(t: Table, id: RequestId, st: RowStatus, a: UserId, b: UserId,
                          pa: map<UserId, Profile>, pb: map<UserId, Profile>)
    requires TableValid(t) && PairUnique(t) && a != b
    requires id in t.rows && Between(t.rows[id], a, b) && st != Pending
    ensures var t' := StatusSet(t, id, st);
            var s := if st == Accepted then AcceptedStatus else RejectedStatus;
            RequestStatus(View(Scan(t'), a, pa), b, Some(a)) == s && RequestStatus(View(Scan(t'), b, pb), a, Some(b)) == s
  {
    var t' := StatusSet(t, id, st);
    StatusSetKeepsPairUnique(t, id, st);
    FoundInTable(t', a, b, id, pa);
    FoundInTable(t', b, a, id, pb);
  }

  /** Cancelling the pair's row leaves both participants with no request. */
  lemma CancelClearsBoth(t: Table, id: RequestId, a: UserId, b: UserId,
                         pa: map<UserId, Profile>, pb: map<UserId, Profile>)
    requires TableValid(t) && PairUnique(t) && a != b
    requires id in t.rows && Between(t.rows[id], a, b)
    ensures var t' := Deleted(t, id);
            RequestStatus(View(Scan(t'), a, pa), b, Some(a)) == NoRequest && RequestStatus(View(Scan(t'), b, pb), a, Some(b)) == NoRequest
  {
    var t' := Deleted(t, id);
    AbsentInTable(t', a, b, pa);
    AbsentInTable(t', b, a, pb);
  }

  /** After an insert from `a` to `b` into a table with no row between them,
      the new row, scanned last, is the only one between them. */
  lemma InsertedIsOnlyMatch(t: Table, a: UserId, b: UserId)
    requires TableValid(t)
    requires forall id :: id in t.rows ==> !Between(t.rows[id], a, b)
    ensures var s := Scan(Inserted(t, a, b));
            && |s| >= 1 && Between(s[|s| - 1], a, b)
            && forall j :: 0 <= j < |s| - 1 ==> !Between(s[j], a, b)
  {
    var s := Scan(Inserted(t, a, b));
    forall j | 0 <= j < |s| - 1 ensures !Between(s[j], a, b) {
      assert s[j] == Scan(t)[j];
      assert t.order[j] in t.rows;
    }
  }

  /** Inserting a row between two users with no row yet keeps the table pair-unique. */
  lemma InsertKeepsPairUnique(t: Table, a: UserId, b: UserId)
    requires TableValid(t) && PairUnique(t)
    requires forall id :: id in t.rows ==> !Between(t.rows[id], a, b)
    ensures PairUnique(Inserted(t, a, b))
  {
  }

  /** A request sent from `a` to `b` when no row joins them shows as
      `pending_sent` to `a` and `pending_received` to `b`, and keeps a
      pair-unique table pair-unique. */
  lemma SendShowsPending(t: Table, a: UserId, b: UserId, pa: map<UserId, Profile>, pb: map<UserId, Profile>)
    requires TableValid(t) && a != b
    requires forall id :: id in t.rows ==> !Between(t.rows[id], a, b)
    ensures var t' := Inserted(t, a, b);
            && RequestStatus(View(Scan(t'), a, pa), b, Some(a)) == PendingSent
            && RequestStatus(View(Scan(t'), b, pb), a, Some(b)) == PendingReceived
            && (PairUnique(t) ==> PairUnique(t'))
  {
    var s := Scan(Inserted(t, a, b));
    InsertedIsOnlyMatch(t, a, b);
    UniqueMatchInScan(s, a, b, |s| - 1, pa);
    UniqueMatchInScan(s, b, a, |s| - 1, pb);
    if PairUnique(t) {
      InsertKeepsPairUnique(t, a, b);
    }
  }

  /** The cache of two scans one after the other is their two caches one after the other. */
  lemma ViewConcat(x: seq<Row>, y: seq<Row>, self: UserId, p: map<UserId, Profile>)
    ensures View(x + y, self, p) == View(x, self, p) + View(y, self, p)
  {
    FilterConcat(x, y, InvolvesUser(self));
    EnrichConcat(Filter(x, InvolvesUser(self)), Filter(y, InvolvesUser(self)), p);
  }

  lemma EnrichConcat(x: seq<Row>, y: seq<Row>, p: map<UserId, Profile>)
    ensures Enrich(x + y, p) == Enrich(x, p) + Enrich(y, p)
  {
    var l, r := Enrich(x + y, p), Enrich(x, p) + Enrich(y, p);
    forall i | 0 <= i < |l| ensures l[i] == r[i] {
      if i < |x| {
        assert (x + y)[i] == x[i];
      } else {
        assert (x + y)[i] == y[i - |x|];
      }
    }
  }

  /** A new row goes behind the existing ones, so once `a` finds a request for
      `b`, inserting another row does not change what `a` finds. */
  lemma InsertBehindFirstMatch(t: Table, a: UserId, b: UserId, sender: UserId, receiver: UserId, p: map<UserId, Profile>)
    requires TableValid(t)
    requires RequestForUser(View(Scan(t), a, p), b, Some(a)).Some?
    ensures RequestForUser(View(Scan(Inserted(t, sender, receiver)), a, p), b, Some(a))
         == RequestForUser(View(Scan(t), a, p), b, Some(a))
  {
    var s := Scan(t);
    var added := [Row(t.nextId, sender, receiver, Pending)];
    ViewConcat(s, added, a, p);
    FindFirstConcat(View(s, a, p), View(added, a, p), MatchesFor(b, Some(a)));
  }

  // ---------------------------------------------------------------------
  // Friends and pending requests against the resolver

  /** No two cached requests join the same pair of users. */
  predicate CacheUnique(requests: seq<FriendRequest>) {
    forall i, j :: 0 <= i < j < |requests| ==> !Between(requests[i].row, requests[j].row.sender, requests[j].row.receiver)
  }

  /** Every request in the viewer's cache involves the viewer. */
  lemma ViewInvolvesSelf(scan: seq<Row>, self: UserId, p: map<UserId, Profile>)
    ensures forall q :: q in View(scan, self, p) ==> Involves(q.row, self)
  {
    var f := Filter(scan, InvolvesUser(self));
    var v := View(scan, self, p);
    forall q | q in v ensures Involves(q.row, self) {
      var i :| 0 <= i < |v| && v[i] == q;
      assert f[i] in f;
    }
  }

  /** The cache a refresh builds from a pair-unique table is pair-unique, and
      every request in it involves the viewer. */
  lemma ViewOfPairUniqueTable(t: Table, self: UserId, p: map<UserId, Profile>)
    requires TableValid(t) && PairUnique(t)
    ensures CacheUnique(View(Scan(t), self, p))
    ensures forall q :: q in View(Scan(t), self, p) ==> Involves(q.row, self)
  {
    var s := Scan(t);
    assert NoDuplicates(s) by {
      forall i, j | 0 <= i < j < |s| ensures s[i] != s[j] {
        assert s[i].id == t.order[i] && s[j].id == t.order[j];
      }
    }
    FilterNoDuplicates(s, InvolvesUser(self));
    var f := Filter(s, InvolvesUser(self));
    var v := View(s, self, p);
    forall i, j | 0 <= i < j < |v| ensures !Between(v[i].row, v[j].row.sender, v[j].row.receiver) {
      assert f[i] in f && f[j] in f;
      var ki :| 0 <= ki < |s| && s[ki] == f[i];
      var kj :| 0 <= kj < |s| && s[kj] == f[j];
      assert t.order[ki] in t.rows && t.order[kj] in t.rows;
    }
    ViewInvolvesSelf(s, self, p);
  }

  /** In a pair-unique cache, a request between the viewer and `f` is the one found for `f`. */
  lemma CacheMatchUnique(requests: seq<FriendRequest>, self: UserId, f: UserId, i: nat)
    requires CacheUnique(requests) && f != self
    requires i < |requests| && Between(requests[i].row, self, f)
    ensures RequestForUser(requests, f, Some(self)) == Some(requests[i])
  {
    forall j | 0 <= j < |requests| && j != i ensures !Matches(requests[j], f, Some(self)) {
      if j < i {
        assert !Between(requests[j].row, requests[i].row.sender, requests[i].row.receiver);
      } else {
        assert !Between(requests[i].row, requests[j].row.sender, requests[j].row.receiver);
      }
    }
    FindFirstUnique(requests, MatchesFor(f, Some(self)), i);
  }

  /** In a pair-unique cache of the viewer's requests, `f` is among the
      viewer's friends exactly when the resolver says `accepted` for `f`. */
  lemma FriendsAgreeWithStatus(requests: seq<FriendRequest>, self: UserId, f: UserId)
    requires CacheUnique(requests) && f != self
    requires forall q :: q in requests ==> Involves(q.row, self)
    ensures f in Friends(requests, self) <==> RequestStatus(requests, f, Some(self)) == AcceptedStatus
  {
    if f in Friends(requests, self) {
      var q :| q in requests && q.row.status == Accepted && Counterparty(q.row, self) == f;
      var i :| 0 <= i < |requests| && requests[i] == q;
      CacheMatchUnique(requests, self, f, i);
    }
    if RequestStatus(requests, f, Some(self)) == AcceptedStatus {
      var q := RequestForUser(requests, f, Some(self)).value;
      assert Counterparty(q.row, self) == f;
    }
  }

  /** Each request waiting for the viewer's answer resolves, for its sender, to `pending_received`. */
  lemma PendingReceivedAgreesWithStatus(requests: seq<FriendRequest>, self: UserId, q: FriendRequest)
    requires CacheUnique(requests)
    requires q in PendingReceivedRequests(requests, Some(self)) && q.row.sender != self
    ensures RequestStatus(requests, q.row.sender, Some(self)) == PendingReceived
  {
    assert multiset(PendingReceivedRequests(requests, Some(self)))[q] > 0;
    assert q in requests;
    var i :| 0 <= i < |requests| && requests[i] == q;
    CacheMatchUnique(requests, self, q.row.sender, i);
  }

  // ---------------------------------------------------------------------
  // The store and the hook as objects

  /** The remote database: the `friend_requests` table and the `profiles`
      table. Whether a call fails is the database's answer, passed in. */
  class Store {
    var table: Table
    var profiles: map<UserId, Profile>

    ghost predicate Valid()
      reads this
    {
      TableValid(table)
    }

    constructor (profiles: map<UserId, Profile>)
      ensures Valid() && table == EmptyTable && this.profiles == profiles
    {
      table := EmptyTable;
      this.profiles := profiles;
    }

    method Insert(sender: UserId, receiver: UserId, fails: bool) returns (err: Option<Error>)
      requires Valid()
      modifies this`table
      ensures Valid()
      ensures err == if fails then Some(DatabaseError) else None
      ensures table == if fails then old(table) else Inserted(old(table), sender, receiver)
    {
      if fails {
        return Some(DatabaseError);
      }
      table := Inserted(table, sender, receiver);
      return None;
    }

    method Update(id: RequestId, status: RowStatus, fails: bool) returns (err: Option<Error>)
      requires Valid()
      modifies this`table
      ensures Valid()
      ensures err == if fails then Some(DatabaseError) else None
      ensures table == if fails then old(table) else StatusSet(old(table), id, status)
    {
      if fails {
        return Some(DatabaseError);
      }
      table := StatusSet(table, id, status);
      return None;
    }

    method Delete(id: RequestId, fails: bool) returns (err: Option<Error>)
      requires Valid()
      modifies this`table
      ensures Valid()
      ensures err == if fails then Some(DatabaseError) else None
      ensures table == if fails then old(table) else Deleted(old(table), id)
    {
      if fails {
        return Some(DatabaseError);
      }
      table := Deleted(table, id);
      return None;
    }
  }

  /** The state `useFriendRequests` keeps for the signed-in `user`. */
  class FriendRequestsHook {
    const user: Option<UserId>
    const store: Store
    var requests: seq<FriendRequest>
    var friends: seq<UserId>
    var loading: bool

    constructor (user: Option<UserId>, store: Store)
      ensures this.user == user && this.store == store
      ensures requests == [] && friends == [] && loading
    {
      this.user := user;
      this.store := store;
      requests, friends, loading := [], [], true;
    }

    /** What `fetchRequests` leaves behind: nothing changes without a user; a
        failed select keeps the cache and clears `loading`; otherwise the cache
        is replaced wholesale by the enriched rows involving the user (with no
        profiles when the lookup fails) and `friends` is derived from it. */
    twostate predicate Refreshed(queryFails: bool, profilesFail: bool)
      reads this, store
    {
      if user.None? then
        requests == old(requests) && friends == old(friends) && loading == old(loading)
      else if queryFails then
        requests == old(requests) && friends == old(friends) && !loading
      else
        && TableValid(store.table)
        && requests == View(Scan(store.table), user.value, if profilesFail then map[] else store.profiles)
        && friends == Friends(requests, user.value)
        && !loading
    }

    /** What a mutation leaves behind: the store's answer is returned; on
        success the write is applied and a refresh follows. */
    twostate predicate Wrote(m: Mutation, writeFails: bool, queryFails: bool, profilesFail: bool, new err: Option<Error>)
      reads this, store
    {
      && err == (if writeFails then Some(DatabaseError) else None)
      && TableValid(old(store.table))
      && store.table == (if writeFails then old(store.table) else Written(old(store.table), user, m))
      && store.profiles == old(store.profiles)
      && if writeFails then
           requests == old(requests) && friends == old(friends) && loading == old(loading)
         else
           Refreshed(queryFails, profilesFail)
    }

    /** `fetchRequests`. */
    method Refresh(queryFails: bool, profilesFail: bool)
      requires store.Valid()
      modifies this
      ensures Refreshed(queryFails, profilesFail)
    {
      if user.None? {
        return;
      }
      if queryFails {
        loading := false;
        return;
      }
      var self := user.value;
      var data := Filter(Scan(store.table), InvolvesUser(self));
      var ids := CollectParticipants(data);
      var found := if profilesFail then map[] else ProfilesIn(store.profiles, ids);
      if !profilesFail {
        ProfileLookupIsBatched(data, store.profiles);
      }
      requests := Enrich(data, found);
      friends := Friends(requests, self);
      loading := false;
    }

    /** The realtime subscription: every change to the table triggers a refresh. */
    method OnTableChange(queryFails: bool, profilesFail: bool)
      requires store.Valid()
      modifies this
      ensures Refreshed(queryFails, profilesFail)
    {
      Refresh(queryFails, profilesFail);
    }

    /** `sendRequest(receiverId)`: without a user, an error and no write. */
    method SendRequest(receiverId: UserId, writeFails: bool, queryFails: bool, profilesFail: bool) returns (err: Option<Error>)
      requires store.Valid()
      modifies this, store
      ensures store.Valid()
      ensures user.None? ==> err == Some(NotAuthenticated) && unchanged(this, store)
      ensures user.Some? ==> Wrote(Mutation.SendRequest(receiverId), writeFails, queryFails, profilesFail, err)
    {
      if user.None? {
        return Some(NotAuthenticated);
      }
      err := store.Insert(user.value, receiverId, writeFails);
      if err.None? {
        Refresh(queryFails, profilesFail);
      }
    }

    /** `acceptRequest(requestId)`: no check of the row's current status. */
    method AcceptRequest(requestId: RequestId, writeFails: bool, queryFails: bool, profilesFail: bool) returns (err: Option<Error>)
      requires store.Valid()
      modifies this, store
      ensures store.Valid()
      ensures Wrote(Mutation.AcceptRequest(requestId), writeFails, queryFails, profilesFail, err)
    {
      err := store.Update(requestId, Accepted, writeFails);
      if err.None? {
        Refresh(queryFails, profilesFail);
      }
    }

    /** `rejectRequest(requestId)`. */
    method RejectRequest(requestId: RequestId, writeFails: bool, queryFails: bool, profilesFail: bool) returns (err: Option<Error>)
      requires store.Valid()
      modifies this, store
      ensures store.Valid()
      ensures Wrote(Mutation.RejectRequest(requestId), writeFails, queryFails, profilesFail, err)
    {
      err := store.Update(requestId, Rejected, writeFails);
      if err.None? {
        Refresh(queryFails, profilesFail);
      }
    }

    /** `cancelRequest(requestId)`: deletes the row, whoever sent it. */
    method CancelRequest(requestId: RequestId, writeFails: bool, queryFails: bool, profilesFail: bool) returns (err: Option<Error>)
      requires store.Valid()
      modifies this, store
      ensures store.Valid()
      ensures Wrote(Mutation.CancelRequest(requestId), writeFails, queryFails, profilesFail, err)
    {
      err := store.Delete(requestId, writeFails);
      if err.None? {
        Refresh(queryFails, profilesFail);
      }
    }
  }

  /** One more row adds its sender and its receiver. */
  lemma ParticipantsSnoc(data: seq<Row>, i: nat)
    requires i < |data|
    ensures Participants(data[..i + 1]) == Participants(data[..i]) + {data[i].sender, data[i].receiver}
  {
    assert data[..i + 1] == data[..i] + [data[i]];
  }

  /** The `forEach` that gathers every sender and receiver id of the selected rows. */
  method CollectParticipants(data: seq<Row>) returns (ids: set<UserId>)
    ensures ids == Participants(data)
  {
    ids := {};
    var i := 0;
    while i < |data|
      invariant 0 <= i <= |data|
      invariant ids == Participants(data[..i])
    {
      ParticipantsSnoc(data, i);
      ids := ids + {data[i].sender, data[i].receiver};
      i := i + 1;
    }
    assert data[..i] == data;
  }

  /** Two refreshes with no write in between leave the same cache. */
  method RefreshTwice(hook: FriendRequestsHook, profilesFail: bool) returns (first: seq<FriendRequest>)
    requires hook.store.Valid()
    modifies hook
    ensures hook.requests == first
    ensures hook.user.Some? ==> first == View(Scan(hook.store.table), hook.user.value, if profilesFail then map[] else hook.store.profiles)
  {
    hook.Refresh(false, profilesFail);
    first := hook.requests;
    hook.Refresh(false, profilesFail);
  }
}
