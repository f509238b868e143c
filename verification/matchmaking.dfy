/** The two opponent finders of teams/views.py: the match-finder page and the
    matching API. Both list the teams that have a slot on the chosen day,
    each with that day's slots in start-time order; they differ in which of
    the user's own teams they leave out and in how they answer a bad call. */
module Matchmaking {
  import opened Wrappers
  import opened Seqs
  import opened Models
  import Http

  /** A listed team with the slots attached to it for the chosen day. */
  datatype TeamSlots = TeamSlots(team: Team, slots: seq<Availability>)

  function EntryTeamId(e: TeamSlots): int { e.team.id }

  predicate StartLe(a: Availability, b: Availability) {
    a.start <= b.start
  }

  lemma StartLeTotalPreorder()
    ensures TotalPreorder(StartLe)
  {
  }

  /** Whether team `t` has at least one slot on `day`. */
  predicate AvailableOn(db: Db, t: Team, day: string) {
    exists a :: a in db.slots && a.teamId == t.id && a.day == day
  }

  /** The prefetched `Availability.objects.filter(day_of_week=day).order_by('start_time')`
      of one team: all of the team's slots on `day` and nothing else, with the
      multiplicity each has in the store, earliest start first. */
  function DaySlots(db: Db, t: Team, day: string): (r: seq<Availability>)
    ensures SortedBy(r, StartLe)
    ensures multiset(r) == multiset(Filter(db.slots, (a: Availability) => a.teamId == t.id && a.day == day))
  {
    StartLeTotalPreorder();
    SortBy(Filter(db.slots, (a: Availability) => a.teamId == t.id && a.day == day), StartLe)
  }

  /** The slots a team is listed with are exactly its slots on the day, and
      there are some exactly when the team is available that day. */
  lemma DaySlotsContents(db: Db, t: Team, day: string)
    ensures forall a :: a in DaySlots(db, t, day) <==> a in db.slots && a.teamId == t.id && a.day == day
    ensures DaySlots(db, t, day) != [] <==> AvailableOn(db, t, day)
  {
    var r := DaySlots(db, t, day);
    assert forall a :: a in r <==> a in multiset(r);
    if r != [] {
      assert r[0] in r;
    }
  }

  /** Whether team `t` is one of the listed entries. */
  predicate Listed(r: seq<TeamSlots>, t: Team) {
    exists i :: 0 <= i < |r| && r[i].team == t
  }

  /** The teams whose id is not in `excluded` and that have a slot on `day`,
      in stored order, each once, with that day's slots. */
  function Opponents(db: Db, day: string, excluded: set<int>): (r: seq<TeamSlots>)
    ensures forall i :: 0 <= i < |r| ==>
      && r[i].team in db.teams && r[i].team.id !in excluded && AvailableOn(db, r[i].team, day)
      && r[i].slots == DaySlots(db, r[i].team, day)
    ensures forall t :: t in db.teams && t.id !in excluded && AvailableOn(db, t, day) ==> Listed(r, t)
    ensures UniqueTeamIds(db.teams) ==> DistinctBy(r, EntryTeamId)
  {
    var p := (t: Team) => t.id !in excluded && AvailableOn(db, t, day);
    var teams := Filter(db.teams, p);
    assert UniqueTeamIds(db.teams) ==> DistinctBy(teams, TeamId) by {
      if UniqueTeamIds(db.teams) {
        FilterKeepsDistinct(db.teams, p, TeamId);
      }
    }
    AttachCovers(db, teams, day);
    var r := Attach(db, teams, day);
    assert forall i :: 0 <= i < |r| ==> r[i].team in teams && p(r[i].team) by {
      forall i | 0 <= i < |r| ensures r[i].team in teams && p(r[i].team) {
        assert r[i].team == teams[i];
      }
    }
    r
  }

  /** Each team of `teams` with its slots on `day`, in the same order. */
  function Attach(db: Db, teams: seq<Team>, day: string): (r: seq<TeamSlots>)
    ensures |r| == |teams|
    ensures forall i :: 0 <= i < |r| ==> r[i].team == teams[i] && r[i].slots == DaySlots(db, teams[i], day)
  {
    if teams == [] then []
    else [TeamSlots(teams[0], DaySlots(db, teams[0], day))] + Attach(db, teams[1..], day)
  }

  lemma AttachCovers(db: Db, teams: seq<Team>, day: string)
    ensures forall t :: t in teams ==> Listed(Attach(db, teams, day), t)
    ensures DistinctBy(teams, TeamId) ==> DistinctBy(Attach(db, teams, day), EntryTeamId)
  {
    var r := Attach(db, teams, day);
    forall t | t in teams ensures Listed(r, t) {
      var i :| 0 <= i < |teams| && teams[i] == t;
      assert r[i].team == t;
    }
    if DistinctBy(teams, TeamId) {
      forall i, j | 0 <= i < j < |r| ensures EntryTeamId(r[i]) != EntryTeamId(r[j]) {
        assert TeamId(teams[i]) != TeamId(teams[j]);
      }
    }
  }

  /** The team ids of `user` are the ids of exactly the teams it manages. */
  lemma OwnIdsAreOwnTeams(db: Db, user: UserId, t: Team)
    requires UniqueTeamIds(db.teams)
    requires t in db.teams
    ensures t.id in TeamIds(ManagedTeams(db, user)) <==> t.manager == user
  {
    if t.id in TeamIds(ManagedTeams(db, user)) {
      var u :| u in ManagedTeams(db, user) && u.id == t.id;
      SameIdSameTeam(db.teams, u, t);
    }
  }

  /** `MatchFinderView.get_context_data`, `available_teams`: nothing without a
      day; otherwise every team that has a slot that day and is not one of
      the user's teams. */
  function MatchFinder(db: Db, user: UserId, day: Option<string>): (r: seq<TeamSlots>)
    ensures !Truthy(day) ==> r == []
    ensures Truthy(day) ==> forall i :: 0 <= i < |r| ==>
      && r[i].team in db.teams && AvailableOn(db, r[i].team, day.value)
      && r[i].team.id !in TeamIds(ManagedTeams(db, user))
      && r[i].slots == DaySlots(db, r[i].team, day.value)
    ensures Truthy(day) ==> forall t ::
      t in db.teams && t.id !in TeamIds(ManagedTeams(db, user)) && AvailableOn(db, t, day.value) ==> Listed(r, t)
    ensures UniqueTeamIds(db.teams) ==> DistinctBy(r, EntryTeamId)
  {
    if Truthy(day) then Opponents(db, day.value, TeamIds(ManagedTeams(db, user))) else []
  }

  /** With unique primary keys the finder lists exactly the teams the user does
      not manage that have a slot on the day. */
  lemma FinderListsOthersAvailable(db: Db, user: UserId, day: string, t: Team)
    requires UniqueTeamIds(db.teams)
    requires day != ""
    requires t in db.teams
    ensures Listed(MatchFinder(db, user, Some(day)), t) <==> t.manager != user && AvailableOn(db, t, day)
  {
    OwnIdsAreOwnTeams(db, user, t);
    var r := MatchFinder(db, user, Some(day));
    if Listed(r, t) {
      var i :| 0 <= i < |r| && r[i].team == t;
      assert r[i].team.id !in TeamIds(ManagedTeams(db, user));
    }
  }

  /** `MatchingAPIView.get`: a missing day is a 400 before a user without a
      team is a 403; then every team with a slot that day except the user's
      first team (the one of least id), each once. */
  function MatchingApi(db: Db, user: UserId, day: Option<string>): (r: Result<seq<TeamSlots>, Http.Error>)
    ensures !Truthy(day) ==> r == Failure(Http.BadRequest)
    ensures Truthy(day) && FirstManagedTeam(db, user).None? ==> r == Failure(Http.Forbidden)
    ensures r.Success? <==> Truthy(day) && FirstManagedTeam(db, user).Some?
    ensures r.Success? ==> forall i :: 0 <= i < |r.value| ==>
      && r.value[i].team in db.teams && AvailableOn(db, r.value[i].team, day.value)
      && r.value[i].team.id != FirstManagedTeam(db, user).value.id
      && r.value[i].slots == DaySlots(db, r.value[i].team, day.value)
    ensures r.Success? ==> forall t ::
      t in db.teams && t.id != FirstManagedTeam(db, user).value.id && AvailableOn(db, t, day.value) ==>
      Listed(r.value, t)
    ensures UniqueTeamIds(db.teams) && r.Success? ==> DistinctBy(r.value, EntryTeamId)
  {
    if !Truthy(day) then Failure(Http.BadRequest)
    else
      match FirstManagedTeam(db, user)
      case None => Failure(Http.Forbidden)
      case Some(mine) => Success(Opponents(db, day.value, {mine.id}))
  }

  /** Where the two finders differ: a user's team other than its first one,
      with a slot on the day, is offered by the API as an opponent but never
      by the finder page. */
  lemma ApiOffersUsersOtherTeams(db: Db, user: UserId, day: string, t: Team)
    requires day != ""
    requires t in db.teams && t.manager == user && AvailableOn(db, t, day)
    requires FirstManagedTeam(db, user).Some? && FirstManagedTeam(db, user).value.id != t.id
    ensures MatchingApi(db, user, Some(day)).Success?
    ensures Listed(MatchingApi(db, user, Some(day)).value, t)
    ensures !Listed(MatchFinder(db, user, Some(day)), t)
  {
    assert t in ManagedTeams(db, user);
    assert t.id in TeamIds(ManagedTeams(db, user));
  }
}
