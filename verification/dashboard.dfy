/** The request buckets of the dashboard (`DashboardView` in teams/views.py).
    Which of the user's teams is current depends on a database ordering of
    the teams by their latest outgoing match; the model takes that team as
    an argument. */
module Dashboard {
  import opened Wrappers
  import opened Seqs
  import opened Models
  import ModelLemmas

  datatype Context = Context(
    userTeams: seq<Team>, currentTeam: Team,
    outgoing: seq<MatchRequest>, incoming: seq<MatchRequest>, pendingCount: int,
    active: seq<MatchRequest>, history: seq<MatchRequest>)

  /** Whether one side of `r` is a team whose id is in `ids`. */
  predicate Involves(r: MatchRequest, ids: set<int>) {
    r.requester.id in ids || r.receiver.id in ids
  }

  /** `match_requests`: every request to or from one of the user's teams, newest first. */
  function UserRequests(db: Db, user: UserId): (r: seq<MatchRequest>)
    ensures SortedBy(r, NewestFirst)
    ensures forall q :: q in r <==> q in db.requests && Involves(q, TeamIds(ManagedTeams(db, user)))
    ensures forall q ::
      multiset(r)[q] ==
        (if Involves(q, TeamIds(ManagedTeams(db, user))) then multiset(db.requests)[q] else 0)
  {
    NewestFirstTotalPreorder();
    var ids := TeamIds(ManagedTeams(db, user));
    var p := (q: MatchRequest) => Involves(q, ids);
    FilterMultiset(db.requests, p);
    var r := SortBy(Filter(db.requests, p), NewestFirst);
    assert forall q :: q in r <==> q in multiset(r);
    r
  }

  /** The requests of `all` that `keep` accepts, in the same order. */
  function Bucket(all: seq<MatchRequest>, keep: MatchRequest -> bool): (r: seq<MatchRequest>)
    ensures forall q :: q in r <==> q in all && keep(q)
    ensures forall q :: multiset(r)[q] == (if keep(q) then multiset(all)[q] else 0)
    ensures SortedBy(all, NewestFirst) ==> SortedBy(r, NewestFirst)
  {
    FilterMultiset(all, keep);
    assert SortedBy(all, NewestFirst) ==> SortedBy(Filter(all, keep), NewestFirst) by {
      if SortedBy(all, NewestFirst) {
        FilterKeepsOrder(all, keep, NewestFirst);
      }
    }
    Filter(all, keep)
  }

  /** The `status__in` list of the two direction buckets. */
  const AnyStatus: seq<string> := ["P", "A", "R", "C"]

  lemma AnyStatusIsStatusCode(s: string)
    ensures s in AnyStatus <==> IsStatusCode(s)
  {
    ModelLemmas.StatusCodesExact(s);
  }

  /** `outgoing_pending`: sent by the current team, in any of the four statuses. */
  function Outgoing(db: Db, user: UserId, current: Team): (r: seq<MatchRequest>)
    requires current in ManagedTeams(db, user)
    ensures forall q :: q in r <==> q in db.requests && q.requester.id == current.id && IsStatusCode(q.status)
    ensures forall q ::
      multiset(r)[q] ==
        (if q.requester.id == current.id && IsStatusCode(q.status) then multiset(db.requests)[q] else 0)
    ensures SortedBy(r, NewestFirst)
  {
    assert current.id in TeamIds(ManagedTeams(db, user));
    var keep := (q: MatchRequest) => q.requester.id == current.id && q.status in AnyStatus;
    var r := Bucket(UserRequests(db, user), keep);
    forall q
      ensures q in r <==> q in db.requests && q.requester.id == current.id && IsStatusCode(q.status)
      ensures multiset(r)[q] ==
        (if q.requester.id == current.id && IsStatusCode(q.status) then multiset(db.requests)[q] else 0)
    {
      AnyStatusIsStatusCode(q.status);
    }
    r
  }

  /** `incoming_pending`: received by the current team, in any of the four statuses. */
  function Incoming(db: Db, user: UserId, current: Team): (r: seq<MatchRequest>)
    requires current in ManagedTeams(db, user)
    ensures forall q :: q in r <==> q in db.requests && q.receiver.id == current.id && IsStatusCode(q.status)
    ensures forall q ::
      multiset(r)[q] ==
        (if q.receiver.id == current.id && IsStatusCode(q.status) then multiset(db.requests)[q] else 0)
    ensures SortedBy(r, NewestFirst)
  {
    assert current.id in TeamIds(ManagedTeams(db, user));
    var keep := (q: MatchRequest) => q.receiver.id == current.id && q.status in AnyStatus;
    var r := Bucket(UserRequests(db, user), keep);
    forall q
      ensures q in r <==> q in db.requests && q.receiver.id == current.id && IsStatusCode(q.status)
      ensures multiset(r)[q] ==
        (if q.receiver.id == current.id && IsStatusCode(q.status) then multiset(db.requests)[q] else 0)
    {
      AnyStatusIsStatusCode(q.status);
    }
    r
  }

  /** `active_matches`: the user's requests that are accepted or cancelled. */
  function Active(db: Db, user: UserId): (r: seq<MatchRequest>)
    ensures forall q :: q in r <==>
      q in db.requests && Involves(q, TeamIds(ManagedTeams(db, user))) && (q.status == "A" || q.status == "C")
    ensures forall q ::
      multiset(r)[q] ==
        (if Involves(q, TeamIds(ManagedTeams(db, user))) && (q.status == "A" || q.status == "C")
         then multiset(db.requests)[q] else 0)
    ensures SortedBy(r, NewestFirst)
  {
    Bucket(UserRequests(db, user), (q: MatchRequest) => q.status == "A" || q.status == "C")
  }

  /** `match_history`: the user's requests that were rejected. */
  function History(db: Db, user: UserId): (r: seq<MatchRequest>)
    ensures forall q :: q in r <==>
      q in db.requests && Involves(q, TeamIds(ManagedTeams(db, user))) && q.status == "R"
    ensures forall q ::
      multiset(r)[q] ==
        (if Involves(q, TeamIds(ManagedTeams(db, user))) && q.status == "R" then multiset(db.requests)[q] else 0)
    ensures SortedBy(r, NewestFirst)
  {
    Bucket(UserRequests(db, user), (q: MatchRequest) => q.status == "R")
  }

  /** `Max('outgoing_requests__match_time')`: the latest match time of the
      requests team `teamId` sent, and `None` when it sent none. */
  function LastMatchDate(requests: seq<MatchRequest>, teamId: int): (r: Option<int>)
    ensures r.None? <==> forall q :: q in requests ==> q.requester.id != teamId
    ensures r.Some? ==> exists q :: q in requests && q.requester.id == teamId && q.matchTime == r.value
    ensures r.Some? ==> forall q :: q in requests && q.requester.id == teamId ==> q.matchTime <= r.value
  {
    if requests == [] then None
    else
      var rest := LastMatchDate(requests[1..], teamId);
      assert forall q :: q in requests <==> q == requests[0] || q in requests[1..] by {
        assert requests == [requests[0]] + requests[1..];
      }
      if requests[0].requester.id != teamId then rest
      else if rest.Some? && rest.value >= requests[0].matchTime then rest
      else Some(requests[0].matchTime)
  }

  /** Whether `a` may be listed before `b` under `order_by('-last_match_date')`
      on every database: unless both teams sent a request, the database
      decides where a team without one goes. */
  predicate LaterOrUnknown(requests: seq<MatchRequest>, a: Team, b: Team) {
    var x := LastMatchDate(requests, a.id);
    var y := LastMatchDate(requests, b.id);
    x.Some? && y.Some? ==> x.value >= y.value
  }

  /** What every database guarantees of `user_teams`: the user's teams, each
      once per stored row, a team with a later latest match listed before
      one with an earlier latest match. Teams without a request and ties are
      placed as the database chooses. */
  predicate UserTeamsOrder(db: Db, user: UserId, order: seq<Team>) {
    multiset(order) == multiset(ManagedTeams(db, user)) && LatestMatchFirst(db.requests, order)
  }

  /** `order_by('-last_match_date')` as far as every database agrees on it. */
  predicate LatestMatchFirst(requests: seq<MatchRequest>, order: seq<Team>) {
    forall i, j :: 0 <= i < j < |order| ==> LaterOrUnknown(requests, order[i], order[j])
  }

  /** Of two listed teams that both sent requests, the one whose latest match
      is later is listed first. */
  lemma LaterMatchListedFirst(requests: seq<MatchRequest>, order: seq<Team>, i: int, j: int)
    requires LatestMatchFirst(requests, order)
    requires 0 <= i < |order| && 0 <= j < |order|
    requires LastMatchDate(requests, order[i].id).Some? && LastMatchDate(requests, order[j].id).Some?
    requires LastMatchDate(requests, order[i].id).value > LastMatchDate(requests, order[j].id).value
    ensures i < j
  {
    assert i != j;
  }

  /** The listed teams are the user's teams. If the first of them, the
      current team, sent a request, no managed team's latest match is later
      than its own; if it sent none, the contract says nothing of the
      others, since a database may list teams without a date first. */
  lemma CurrentTeamIsLatest(db: Db, user: UserId, order: seq<Team>)
    requires UserTeamsOrder(db, user, order)
    ensures order == [] <==> ManagedTeams(db, user) == []
    ensures forall t :: t in order <==> t in ManagedTeams(db, user)
    ensures order != [] ==> forall t :: t in ManagedTeams(db, user) ==> LaterOrUnknown(db.requests, order[0], t)
  {
    assert |order| == |multiset(order)| == |multiset(ManagedTeams(db, user))| == |ManagedTeams(db, user)|;
    forall t ensures t in order <==> t in ManagedTeams(db, user) {
      assert t in order <==> t in multiset(order);
    }
    if order != [] {
      forall t | t in ManagedTeams(db, user) ensures LaterOrUnknown(db.requests, order[0], t) {
        var j :| 0 <= j < |order| && order[j] == t;
        if j > 0 {
          assert LaterOrUnknown(db.requests, order[0], order[j]);
        }
      }
    }
  }

  /** `DashboardView.get_context_data`. `order` is `user_teams` as the
      database ordered it. Without a managed team the view returns no
      context. Otherwise the current team is the first listed team;
      `outgoing` and `incoming` are the requests sent and received by it in
      any of the four statuses, each once per stored row; `pendingCount`
      counts both; `active` holds the accepted and cancelled requests of all
      the user's teams and `history` the rejected ones; each list is newest
      first. */
  function DashboardContext(db: Db, user: UserId, order: seq<Team>): (c: Option<Context>)
    requires UserTeamsOrder(db, user, order)
    ensures c.None? <==> ManagedTeams(db, user) == []
    ensures c.Some? ==> c.value.userTeams == order && c.value.currentTeam == order[0]
    ensures c.Some? ==> multiset(c.value.userTeams) == multiset(ManagedTeams(db, user))
    ensures c.Some? ==> c.value.currentTeam in ManagedTeams(db, user)
    ensures c.Some? ==> forall t :: t in ManagedTeams(db, user) ==> LaterOrUnknown(db.requests, c.value.currentTeam, t)
    ensures c.Some? ==> forall q :: q in c.value.outgoing <==>
      q in db.requests && q.requester.id == c.value.currentTeam.id && IsStatusCode(q.status)
    ensures c.Some? ==> forall q :: q in c.value.incoming <==>
      q in db.requests && q.receiver.id == c.value.currentTeam.id && IsStatusCode(q.status)
    ensures c.Some? ==> forall q ::
      multiset(c.value.outgoing)[q] ==
        (if q.requester.id == c.value.currentTeam.id && IsStatusCode(q.status) then multiset(db.requests)[q] else 0)
    ensures c.Some? ==> forall q ::
      multiset(c.value.incoming)[q] ==
        (if q.receiver.id == c.value.currentTeam.id && IsStatusCode(q.status) then multiset(db.requests)[q] else 0)
    ensures c.Some? ==> c.value.pendingCount == |c.value.outgoing| + |c.value.incoming|
    ensures c.Some? ==> forall q :: q in c.value.active <==>
      q in db.requests && Involves(q, TeamIds(ManagedTeams(db, user))) && (q.status == "A" || q.status == "C")
    ensures c.Some? ==> forall q :: q in c.value.history <==>
      q in db.requests && Involves(q, TeamIds(ManagedTeams(db, user))) && q.status == "R"
    ensures c.Some? ==> forall q ::
      multiset(c.value.active)[q] ==
        (if Involves(q, TeamIds(ManagedTeams(db, user))) && (q.status == "A" || q.status == "C")
         then multiset(db.requests)[q] else 0)
    ensures c.Some? ==> forall q ::
      multiset(c.value.history)[q] ==
        (if Involves(q, TeamIds(ManagedTeams(db, user))) && q.status == "R" then multiset(db.requests)[q] else 0)
    ensures c.Some? ==>
      && SortedBy(c.value.outgoing, NewestFirst) && SortedBy(c.value.incoming, NewestFirst)
      && SortedBy(c.value.active, NewestFirst) && SortedBy(c.value.history, NewestFirst)
  {
    CurrentTeamIsLatest(db, user, order);
    if order == [] then None
    else
      var current := order[0];
      var outgoing := Outgoing(db, user, current);
      var incoming := Incoming(db, user, current);
      Some(Context(order, current, outgoing, incoming, |outgoing| + |incoming|, Active(db, user), History(db, user)))
  }

  /** Under the check constraint no request is both outgoing and incoming,
      every stored request of the current team in one of the four statuses
      is in exactly one of them; active and history never share a request,
      and a pending request is in neither. */
  lemma BucketsPartition(db: Db, user: UserId, order: seq<Team>, q: MatchRequest)
    requires Valid(db)
    requires UserTeamsOrder(db, user, order)
    requires order != []
    ensures var c := DashboardContext(db, user, order).value;
      && !(q in c.outgoing && q in c.incoming)
      && (q in db.requests && IsStatusCode(q.status)
          && (q.requester.id == c.currentTeam.id || q.receiver.id == c.currentTeam.id)
          ==> (q in c.outgoing || q in c.incoming))
      && !(q in c.active && q in c.history)
      && (q.status == "P" ==> q !in c.active && q !in c.history)
  {
    CurrentTeamIsLatest(db, user, order);
    var current := order[0];
    var c := DashboardContext(db, user, order).value;
    assert c.outgoing == Outgoing(db, user, current) && c.incoming == Incoming(db, user, current);
    assert c.active == Active(db, user) && c.history == History(db, user);
    assert q in c.outgoing && q in c.incoming ==> RequesterNotReceiver(q);
  }
}
