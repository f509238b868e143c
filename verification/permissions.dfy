/** The access rules of teams/views.py: who may edit a team, who may see a
    match request and its chat. */
module Permissions {
  import opened Wrappers
  import opened Seqs
  import opened Models
  import Http

  /** `IsTeamManagerMixin.test_func`: the team with primary key `pk` exists and
      `user` manages it; a missing team is a refusal, not an error. */
  function IsTeamManager(db: Db, pk: Option<int>, user: User): (ok: bool)
    ensures ok ==> exists t :: t in db.teams && pk == Some(t.id) && ManagedBy(t, user)
    ensures pk.None? || pk.value !in TeamIds(db.teams) ==> !ok
    ensures UniqueTeamIds(db.teams) ==>
      (ok <==> exists t :: t in db.teams && pk == Some(t.id) && ManagedBy(t, user))
  {
    match FindTeam(db.teams, pk)
    case None => false
    case Some(t) =>
      assert UniqueTeamIds(db.teams) ==> forall u :: u in db.teams && pk == Some(u.id) ==> u == t by {
        if UniqueTeamIds(db.teams) {
          forall u | u in db.teams && pk == Some(u.id) ensures u == t {
            SameIdSameTeam(db.teams, u, t);
          }
        }
      }
      ManagedBy(t, user)
  }

  /** `IsMatchParticipantPermission.has_object_permission`, and the same test
      written out in `MatchRequestDetailView`: the user manages either team. */
  predicate IsMatchParticipant(user: User, r: MatchRequest) {
    ManagedBy(r.requester, user) || ManagedBy(r.receiver, user)
  }

  /** The request with its two sides exchanged. */
  function Swapped(r: MatchRequest): MatchRequest {
    r.(requester := r.receiver, receiver := r.requester)
  }

  /** Being a participant does not depend on which side sent the request;
      the requester's manager is a participant, and a participant who did
      not send the request manages the receiver. */
  lemma ParticipantSymmetric(user: User, r: MatchRequest)
    ensures IsMatchParticipant(user, r) <==> IsMatchParticipant(user, Swapped(r))
    ensures IsRequester(r, user) ==> IsMatchParticipant(user, r)
    ensures IsMatchParticipant(user, r) && !IsRequester(r, user) ==> ManagedBy(r.receiver, user)
    ensures user.Anonymous? ==> !IsMatchParticipant(user, r)
  {
  }

  /** A participant's own side has the other participant as its other team. */
  lemma ParticipantsOtherTeam(user: User, r: MatchRequest, mine: Team)
    requires RequesterNotReceiver(r)
    requires IsMatchParticipant(user, r)
    requires mine == r.requester || mine == r.receiver
    ensures OtherTeam(r, TeamObject(mine)).Some?
    ensures OtherTeam(r, TeamObject(mine)).value == (if mine == r.requester then r.receiver else r.requester)
  {
  }

  datatype RequestDetail = RequestDetail(request: MatchRequest, chatMessages: seq<ChatMessage>)

  /** `MatchRequestDetailView.get_context_data` for the signed-in `user`
      that `LoginRequiredMixin` lets through: a missing request is a 404,
      a user managing neither team is denied, anyone else sees the request
      and its messages in timestamp order, each once per stored row. */
  function MatchRequestDetail(db: Db, pk: int, user: UserId): (r: Result<RequestDetail, Http.Error>)
    ensures FindRequest(db.requests, pk).None? ==> r == Failure(Http.NotFound)
    ensures r.Success? <==>
      FindRequest(db.requests, pk).Some? && IsMatchParticipant(Authenticated(user), FindRequest(db.requests, pk).value)
    ensures r.Failure? && FindRequest(db.requests, pk).Some? ==> r.error == Http.PermissionDenied
    ensures r.Success? ==>
      && r.value.request in db.requests && r.value.request.id == pk
      && IsMatchParticipant(Authenticated(user), r.value.request)
      && SortedBy(r.value.chatMessages, TimestampLe)
      && (forall m :: m in r.value.chatMessages <==> m in db.messages && m.matchRequestId == pk)
      && (forall m :: multiset(r.value.chatMessages)[m] ==
            (if m.matchRequestId == pk then multiset(db.messages)[m] else 0))
  {
    match FindRequest(db.requests, pk)
    case None => Failure(Http.NotFound)
    case Some(req) =>
      if !IsMatchParticipant(Authenticated(user), req) then Failure(Http.PermissionDenied)
      else Success(RequestDetail(req, Thread(db.messages, req.id)))
  }

  /** A user who manages neither team of a stored request is always refused,
      whatever messages the request has. */
  lemma OutsiderDenied(db: Db, pk: int, user: UserId)
    requires FindRequest(db.requests, pk).Some?
    requires !ManagedBy(FindRequest(db.requests, pk).value.requester, Authenticated(user))
    requires !ManagedBy(FindRequest(db.requests, pk).value.receiver, Authenticated(user))
    ensures MatchRequestDetail(db, pk, user) == Failure(Http.PermissionDenied)
  {
  }
}
