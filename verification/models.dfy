/** The records of the matchmaking domain (teams/models.py): teams, their
    weekly availability slots, match requests between two teams and the chat
    messages of a request, with the helpers the views and templates call.
    A queryset is a sequence; a foreign key is the referenced record's id,
    except that a request carries its two teams as loaded instances. */
module Models {
  import opened Wrappers
  import opened Seqs
  import opened Strings
  import Http

  type UserId = int

  /** The user of a request: anonymous, or a logged-in account. */
  datatype User = Anonymous | Authenticated(id: UserId)

  /** A team. `skill` is not a column of the team model; the tests, the admin
      and the serializers still use a skill level, and only the matching rule
      taken from the tests reads it. */
  datatype Team = Team(id: int, name: string, manager: UserId, location: string, skill: int)

  function TeamId(t: Team): int { t.id }

  /** `team.manager == user`: a user instance never equals an anonymous user. */
  predicate ManagedBy(t: Team, user: User) {
    user.Authenticated? && t.manager == user.id
  }

  /** Python truthiness of an optional string argument: `None` and `''` are false. */
  predicate Truthy(p: Option<string>) {
    p.Some? && p.value != ""
  }

  // ---------------------------------------------------------------------------
  // Availability

  /** A `TimeField` value, as minutes since midnight. */
  type Time = t: int | 0 <= t < 24 * 60

  const DayChoices: seq<(string, string)> := [
    ("MON", "Monday"), ("TUE", "Tuesday"), ("WED", "Wednesday"),
    ("THU", "Thursday"), ("FRI", "Friday"), ("SAT", "Saturday"),
    ("SUN", "Sunday")
  ]

  predicate IsDayCode(code: string) {
    exists i :: 0 <= i < |DayChoices| && DayChoices[i].0 == code
  }

  datatype Availability = Availability(id: int, teamId: int, day: string, start: Time, end: Time)

  /** The columns of the `unique_together` constraint. */
  function SlotKey(a: Availability): (int, string, Time, Time) {
    (a.teamId, a.day, a.start, a.end)
  }

  predicate UniqueSlots(slots: seq<Availability>) {
    DistinctBy(slots, SlotKey)
  }

  // ---------------------------------------------------------------------------
  // Match requests

  const StatusChoices: seq<(string, string)> := [
    ("P", "Pending"), ("A", "Accepted"), ("R", "Rejected"), ("C", "Cancelled")
  ]

  const DefaultStatus: string := "P"

  predicate IsStatusCode(s: string) {
    exists i :: 0 <= i < |StatusChoices| && StatusChoices[i].0 == s
  }

  /** A proposal from `requester` to `receiver`; datetimes are integer seconds. */
  datatype MatchRequest = MatchRequest(
    id: int, requester: Team, receiver: Team, status: string,
    matchTime: int, location: string, createdAt: int)

  /** The `requester_not_receiver` check constraint. */
  predicate RequesterNotReceiver(r: MatchRequest) {
    r.requester.id != r.receiver.id
  }

  /** `MatchRequest.objects.create(...)`: the status takes its default, and the
      database refuses a row whose requester is its receiver. */
  function NewMatchRequest(id: int, requester: Team, receiver: Team, matchTime: int,
                           location: string, createdAt: int): (r: Result<MatchRequest, Http.Error>)
    ensures r.Success? <==> requester.id != receiver.id
    ensures r.Failure? ==> r.error == Http.IntegrityError
    ensures r.Success? ==>
      && RequesterNotReceiver(r.value)
      && IsStatusCode(r.value.status) && r.value.status == DefaultStatus
      && r.value.requester == requester && r.value.receiver == receiver
      && r.value.matchTime == matchTime && r.value.location == location
      && r.value.id == id && r.value.createdAt == createdAt
  {
    if requester.id == receiver.id then Failure(Http.IntegrityError)
    else
      assert StatusChoices[0].0 == DefaultStatus;
      Success(MatchRequest(id, requester, receiver, DefaultStatus, matchTime, location, createdAt))
  }

  /** The argument of `other_team`: a team instance or a bare primary key. */
  datatype TeamRef = TeamObject(team: Team) | TeamPk(pk: int)

  function Pk(ref: TeamRef): int {
    match ref
    case TeamObject(t) => t.id
    case TeamPk(pk) => pk
  }

  /** The participant opposite to `ref`, or `None` when `ref` takes no part. */
  function OtherTeam(r: MatchRequest, ref: TeamRef): (o: Option<Team>)
    ensures o.Some? <==> Pk(ref) == r.requester.id || Pk(ref) == r.receiver.id
    ensures o.Some? ==> o.value == r.requester || o.value == r.receiver
  {
    var pk := Pk(ref);
    if pk == r.requester.id then Some(r.receiver)
    else if pk == r.receiver.id then Some(r.requester)
    else None
  }

  predicate IsPending(r: MatchRequest) { r.status == "P" }
  predicate IsAccepted(r: MatchRequest) { r.status == "A" }
  predicate IsRejected(r: MatchRequest) { r.status == "R" }

  /** Whether `user` manages the team that sent the request. */
  predicate IsRequester(r: MatchRequest, user: User) {
    user.Authenticated? && r.requester.manager == user.id
  }

  /** The request model's default ordering, `-created_at`: newest first. */
  predicate NewestFirst(a: MatchRequest, b: MatchRequest) {
    a.createdAt >= b.createdAt
  }

  lemma NewestFirstTotalPreorder()
    ensures TotalPreorder(NewestFirst)
  {
  }

  // ---------------------------------------------------------------------------
  // Chat messages

  datatype ChatMessage = ChatMessage(
    id: int, matchRequestId: int, sender: UserId, timestamp: int,
    content: string, senderTeamId: Option<int>)

  predicate TimestampLe(a: ChatMessage, b: ChatMessage) {
    a.timestamp <= b.timestamp
  }

  lemma TimestampLeTotalPreorder()
    ensures TotalPreorder(TimestampLe)
  {
  }

  /** `match_request.chat_messages`: the messages of one request, in the
      model's default `timestamp` order. */
  function Thread(messages: seq<ChatMessage>, requestId: int): (r: seq<ChatMessage>)
    ensures SortedBy(r, TimestampLe)
    ensures forall m ::
      multiset(r)[m] == (if m.matchRequestId == requestId then multiset(messages)[m] else 0)
    ensures forall m :: m in r <==> m in messages && m.matchRequestId == requestId
  {
    TimestampLeTotalPreorder();
    var p := (m: ChatMessage) => m.matchRequestId == requestId;
    FilterMultiset(messages, p);
    var r := SortBy(Filter(messages, p), TimestampLe);
    assert forall m :: m in r <==> m in multiset(r);
    r
  }

  // ---------------------------------------------------------------------------
  // The stored rows

  datatype Db = Db(
    teams: seq<Team>, slots: seq<Availability>,
    requests: seq<MatchRequest>, messages: seq<ChatMessage>)

  predicate UniqueTeamIds(teams: seq<Team>) {
    DistinctBy(teams, TeamId)
  }

  function TeamName(t: Team): string { t.name }
  function SlotId(a: Availability): int { a.id }
  function RequestId(r: MatchRequest): int { r.id }
  function MessageId(m: ChatMessage): int { m.id }

  /** What the database guarantees of its rows: unique primary keys in every
      table, unique team names, the availability `unique_together`, the
      request check constraint, and foreign keys that name stored rows. A
      request carries its two teams as loaded, so they are stored rows
      themselves. */
  predicate Valid(db: Db) {
    && UniqueTeamIds(db.teams)
    && DistinctBy(db.teams, TeamName)
    && DistinctBy(db.slots, SlotId)
    && DistinctBy(db.requests, RequestId)
    && DistinctBy(db.messages, MessageId)
    && UniqueSlots(db.slots)
    && (forall a :: a in db.slots ==> a.teamId in TeamIds(db.teams))
    && (forall r :: r in db.requests ==> RequesterNotReceiver(r))
    && (forall r :: r in db.requests ==> r.requester in db.teams && r.receiver in db.teams)
    && (forall m :: m in db.messages ==> exists r :: r in db.requests && r.id == m.matchRequestId)
    && (forall m :: m in db.messages && m.senderTeamId.Some? ==> m.senderTeamId.value in TeamIds(db.teams))
  }

  function TeamIds(teams: seq<Team>): set<int> {
    set t | t in teams :: t.id
  }

  /** With unique primary keys, a team is determined by its id. */
  lemma SameIdSameTeam(teams: seq<Team>, a: Team, b: Team)
    requires UniqueTeamIds(teams)
    requires a in teams && b in teams && a.id == b.id
    ensures a == b
  {
    var i :| 0 <= i < |teams| && teams[i] == a;
    var j :| 0 <= j < |teams| && teams[j] == b;
    assert TeamId(teams[i]) == TeamId(teams[j]);
  }

  /** `Team.objects.get(pk=pk)`, with `None` for `DoesNotExist`. */
  function FindTeam(teams: seq<Team>, pk: Option<int>): (r: Option<Team>)
    ensures r.Some? ==> r.value in teams && pk == Some(r.value.id)
    ensures r.None? <==> pk.None? || pk.value !in TeamIds(teams)
  {
    if pk.None? || teams == [] then None
    else if teams[0].id == pk.value then Some(teams[0])
    else
      assert TeamIds(teams) == {teams[0].id} + TeamIds(teams[1..]) by {
        assert teams == [teams[0]] + teams[1..];
      }
      FindTeam(teams[1..], pk)
  }

  /** `get_object_or_404(MatchRequest, pk=pk)`, with `None` for the 404. */
  function FindRequest(requests: seq<MatchRequest>, pk: int): (r: Option<MatchRequest>)
    ensures r.Some? ==> r.value in requests && r.value.id == pk
    ensures r.None? <==> forall q :: q in requests ==> q.id != pk
  {
    if requests == [] then None
    else if requests[0].id == pk then Some(requests[0])
    else FindRequest(requests[1..], pk)
  }

  /** `user.managed_teams`, in stored order: each stored team of the user as
      often as it is stored, and no other team. */
  function ManagedTeams(db: Db, user: UserId): (r: seq<Team>)
    ensures forall t :: t in r <==> t in db.teams && t.manager == user
    ensures forall t :: multiset(r)[t] == (if t.manager == user then multiset(db.teams)[t] else 0)
  {
    var p := (t: Team) => t.manager == user;
    FilterMultiset(db.teams, p);
    Filter(db.teams, p)
  }

  /** The team of least id in `teams`: what `.first()` picks from a queryset
      that has no ordering of its own. */
  function LeastId(teams: seq<Team>): (r: Option<Team>)
    ensures r.None? <==> teams == []
    ensures r.Some? ==> r.value in teams && forall t :: t in teams ==> r.value.id <= t.id
  {
    if teams == [] then None
    else
      var rest := LeastId(teams[1..]);
      assert forall t :: t in teams ==> t == teams[0] || t in teams[1..] by {
        assert teams == [teams[0]] + teams[1..];
      }
      if rest.None? || teams[0].id <= rest.value.id then Some(teams[0]) else rest
  }

  /** `user.managed_teams.first()`: the managed team of least id. */
  function FirstManagedTeam(db: Db, user: UserId): (r: Option<Team>)
    ensures r.None? <==> forall t :: t in db.teams ==> t.manager != user
    ensures r.Some? ==> r.value in db.teams && r.value.manager == user
    ensures r.Some? ==> forall t :: t in db.teams && t.manager == user ==> r.value.id <= t.id
  {
    var mine := ManagedTeams(db, user);
    assert mine == [] <==> forall t :: t in db.teams ==> t.manager != user by {
      if mine != [] { assert mine[0] in mine; }
    }
    LeastId(mine)
  }

  // ---------------------------------------------------------------------------
  // A team's slot list

  /** `order_by('day_of_week', 'start_time')`: the day codes compare as
      strings, so the order is alphabetical and not the calendar's. */
  predicate SlotLe(a: Availability, b: Availability) {
    if a.day == b.day then a.start <= b.start else StrLe(a.day, b.day)
  }

  lemma SlotLeTotalPreorder()
    ensures TotalPreorder(SlotLe)
  {
    forall a, b ensures SlotLe(a, b) || SlotLe(b, a) {
      StrLeTotal(a.day, b.day);
    }
    forall a, b, c | SlotLe(a, b) && SlotLe(b, c) ensures SlotLe(a, c) {
      if a.day != b.day && b.day != c.day {
        StrLeTransitive(a.day, b.day, c.day);
        if a.day == c.day {
          StrLeAntisymmetric(a.day, b.day);
        }
      }
    }
  }

  /** Whether `get_available_slots(dayCode)` of `team` keeps slot `a`. */
  predicate SlotSelected(a: Availability, team: Team, dayCode: Option<string>) {
    a.teamId == team.id && (Truthy(dayCode) ==> a.day == dayCode.value)
  }

  /** `Team.get_available_slots`: the team's slots, only those of `dayCode`
      when it is given, sorted by day code and then start time. */
  function GetAvailableSlots(slots: seq<Availability>, team: Team, dayCode: Option<string>): (r: seq<Availability>)
    ensures SortedBy(r, SlotLe)
    ensures forall a ::
      multiset(r)[a] == (if SlotSelected(a, team, dayCode) then multiset(slots)[a] else 0)
  {
    SlotLeTotalPreorder();
    var p := (a: Availability) => SlotSelected(a, team, dayCode);
    FilterMultiset(slots, p);
    SortBy(Filter(slots, p), SlotLe)
  }

  // ---------------------------------------------------------------------------
  // Serialised forms

  function Digit(d: int): char
    requires 0 <= d < 10
  {
    ('0' as int + d) as char
  }

  predicate IsDigit(c: char) { '0' <= c <= '9' }

  function DigitValue(c: char): int
    requires IsDigit(c)
  {
    c as int - '0' as int
  }

  /** `strftime('%H:%M')`: two zero-padded digits of hour, a colon, two of minute. */
  function FormatHHMM(t: Time): (s: string)
    ensures |s| == 5 && s[2] == ':'
    ensures IsDigit(s[0]) && IsDigit(s[1]) && IsDigit(s[3]) && IsDigit(s[4])
  {
    var h := t / 60;
    var m := t % 60;
    [Digit(h / 10), Digit(h % 10), ':', Digit(m / 10), Digit(m % 10)]
  }

  /** Reads back an `HH:MM` string; the reference the formatting is checked against. */
  function ParseHHMM(s: string): Option<Time> {
    if |s| == 5 && IsDigit(s[0]) && IsDigit(s[1]) && s[2] == ':' && IsDigit(s[3]) && IsDigit(s[4]) then
      var h := DigitValue(s[0]) * 10 + DigitValue(s[1]);
      var m := DigitValue(s[3]) * 10 + DigitValue(s[4]);
      if h < 24 && m < 60 then Some(h * 60 + m) else None
    else None
  }

  lemma FormatThenParse(t: Time)
    ensures ParseHHMM(FormatHHMM(t)) == Some(t)
  {
    var s := FormatHHMM(t);
    var h := t / 60;
    var m := t % 60;
    assert DigitValue(s[0]) * 10 + DigitValue(s[1]) == h;
    assert DigitValue(s[3]) * 10 + DigitValue(s[4]) == m;
  }

  lemma ParseThenFormat(s: string)
    ensures ParseHHMM(s).Some? ==> FormatHHMM(ParseHHMM(s).value) == s
  {
    if ParseHHMM(s).Some? {
      var h := DigitValue(s[0]) * 10 + DigitValue(s[1]);
      var m := DigitValue(s[3]) * 10 + DigitValue(s[4]);
      var t := ParseHHMM(s).value;
      assert t / 60 == h && t % 60 == m;
      var f := FormatHHMM(t);
      assert f[0] == s[0] && f[1] == s[1] && f[3] == s[3] && f[4] == s[4];
    }
  }

  /** `Availability.format_time`: `''` for a missing time, `HH:MM` otherwise
      (a `time` value is never falsy, midnight included). */
  function FormatTime(t: Option<Time>): (s: string)
    ensures s == "" <==> t.None?
    ensures t.Some? ==> ParseHHMM(s) == Some(t.value)
  {
    match t
    case None => ""
    case Some(v) => FormatThenParse(v); FormatHHMM(v)
  }

  datatype SlotDict = SlotDict(day: string, start: string, end: string)

  /** `Availability.to_dict`. */
  function SlotToDict(a: Availability): (d: SlotDict)
    ensures d.day == a.day
    ensures ParseHHMM(d.start) == Some(a.start) && ParseHHMM(d.end) == Some(a.end)
  {
    SlotDict(a.day, FormatTime(Some(a.start)), FormatTime(Some(a.end)))
  }

  datatype TeamDict = TeamDict(id: int, name: string, location: string, availabilities: seq<SlotDict>)

  /** `Team.to_dict`: one entry per slot of `get_available_slots(dayCode)`, in that order. */
  function TeamToDict(slots: seq<Availability>, team: Team, dayCode: Option<string>): (d: TeamDict)
    ensures d.id == team.id && d.name == team.name && d.location == team.location
    ensures var s := GetAvailableSlots(slots, team, dayCode);
      && |d.availabilities| == |s|
      && forall i :: 0 <= i < |s| ==>
           d.availabilities[i].day == s[i].day
           && ParseHHMM(d.availabilities[i].start) == Some(s[i].start)
           && ParseHHMM(d.availabilities[i].end) == Some(s[i].end)
  {
    var s := GetAvailableSlots(slots, team, dayCode);
    TeamDict(team.id, team.name, team.location,
             seq(|s|, i requires 0 <= i < |s| => SlotToDict(s[i])))
  }
}
