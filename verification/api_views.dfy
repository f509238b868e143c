/** The two REST view sets of teams/views.py: the availability API, scoped to
    the slots of the user's teams, and the chat API of one match request.
    Both sit behind `IsAuthenticated`, so the user here is always a signed-in
    user id. */
module ApiViews {
  import opened Wrappers
  import opened Seqs
  import opened Models
  import Http
  import Permissions
  import ModelLemmas

  // ---------------------------------------------------------------------------
  // Availability

  /** `AvailabilityViewSet.get_queryset`: the stored slots whose team is one
      the user manages, in stored order. */
  function AvailabilityList(db: Db, user: UserId): (r: seq<Availability>)
    ensures forall a :: a in r <==> a in db.slots && a.teamId in TeamIds(ManagedTeams(db, user))
    ensures forall a ::
      multiset(r)[a] == (if a.teamId in TeamIds(ManagedTeams(db, user)) then multiset(db.slots)[a] else 0)
  {
    var ids := TeamIds(ManagedTeams(db, user));
    var p := (a: Availability) => a.teamId in ids;
    FilterMultiset(db.slots, p);
    Filter(db.slots, p)
  }

  /** With unique team keys a listed slot belongs to a team the user
      manages, and every slot of such a team is listed. */
  lemma AvailabilityListIsOwnSlots(db: Db, user: UserId, a: Availability)
    requires UniqueTeamIds(db.teams)
    requires a in db.slots
    ensures a in AvailabilityList(db, user) <==>
      exists t :: t in db.teams && t.id == a.teamId && t.manager == user
  {
    if a in AvailabilityList(db, user) {
      var t :| t in ManagedTeams(db, user) && t.id == a.teamId;
      assert t in db.teams && t.manager == user;
    }
  }

  /** The slot `AvailabilityViewSet.perform_create` saves. */
  function NewSlot(id: int, teamId: int, day: string, start: Time, end: Time): Availability {
    Availability(id, teamId, day, start, end)
  }

  /** Whether a stored slot already has the `unique_together` columns of `a`. */
  predicate Clashes(slots: seq<Availability>, a: Availability) {
    exists b :: b in slots && SlotKey(b) == SlotKey(a)
  }

  /** `AvailabilityViewSet.create`: the serializer refuses a day that is not
      one of the seven codes (400); `get_object_or_404(Team, pk=team,
      manager=user)` refuses a team the user does not manage, or no team at
      all (404); a slot that repeats the `unique_together` columns of a
      stored one is refused by the database (the `IntegrityError`);
      otherwise the slot is stored for that team and nothing else changes. */
  function AvailabilityCreate(db: Db, user: UserId, teamPk: Option<int>, day: string,
                              start: Time, end: Time, newId: int): (r: Result<Db, Http.Error>)
    ensures !IsDayCode(day) ==> r == Failure(Http.BadRequest)
    ensures IsDayCode(day) && (teamPk.None? || teamPk.value !in TeamIds(ManagedTeams(db, user))) ==>
      r == Failure(Http.NotFound)
    ensures r.Success? <==>
      && IsDayCode(day) && teamPk.Some? && teamPk.value in TeamIds(ManagedTeams(db, user))
      && !Clashes(db.slots, NewSlot(newId, teamPk.value, day, start, end))
    ensures r.Failure? && IsDayCode(day) && teamPk.Some? && teamPk.value in TeamIds(ManagedTeams(db, user)) ==>
      r.error == Http.IntegrityError
    ensures r.Success? ==>
      && r.value.teams == db.teams && r.value.requests == db.requests && r.value.messages == db.messages
      && r.value.slots == db.slots + [NewSlot(newId, teamPk.value, day, start, end)]
  {
    if !IsDayCode(day) then Failure(Http.BadRequest)
    else
      match FindTeam(ManagedTeams(db, user), teamPk)
      case None => Failure(Http.NotFound)
      case Some(team) =>
        var a := NewSlot(newId, team.id, day, start, end);
        if Clashes(db.slots, a) then Failure(Http.IntegrityError)
        else Success(db.(slots := db.slots + [a]))
  }

  /** A stored slot, under a key the database has not used yet, keeps the
      database valid, belongs to a team the user manages, and appears in
      that user's availability list. */
  lemma AvailabilityCreateKeepsValid(db: Db, user: UserId, teamPk: Option<int>, day: string,
                                     start: Time, end: Time, newId: int)
    requires Valid(db)
    requires forall a :: a in db.slots ==> a.id != newId
    requires AvailabilityCreate(db, user, teamPk, day, start, end, newId).Success?
    ensures var db' := AvailabilityCreate(db, user, teamPk, day, start, end, newId).value;
      && Valid(db')
      && NewSlot(newId, teamPk.value, day, start, end) in AvailabilityList(db', user)
      && exists t :: t in db.teams && Some(t.id) == teamPk && t.manager == user
  {
    var a := NewSlot(newId, teamPk.value, day, start, end);
    var s := db.slots + [a];
    forall i, j | 0 <= i < j < |s| ensures SlotKey(s[i]) != SlotKey(s[j]) && SlotId(s[i]) != SlotId(s[j]) {
      if j == |s| - 1 {
        assert s[i] in db.slots;
      } else {
        assert s[i] == db.slots[i] && s[j] == db.slots[j];
      }
    }
    assert UniqueSlots(s) && DistinctBy(s, SlotId);
    var t :| t in ManagedTeams(db, user) && t.id == teamPk.value;
    assert t in db.teams && t.manager == user;
    assert forall b :: b in s ==> b.teamId in TeamIds(db.teams) by {
      forall b | b in s ensures b.teamId in TeamIds(db.teams) {
        if b == a { assert t in db.teams; } else { assert b in db.slots; }
      }
    }
  }

  /** Creating a slot changes no other user's availability list unless that
      user manages a team of the same id. */
  lemma AvailabilityCreateOthersUnchanged(db: Db, user: UserId, other: UserId, teamPk: Option<int>,
                                          day: string, start: Time, end: Time, newId: int)
    requires AvailabilityCreate(db, user, teamPk, day, start, end, newId).Success?
    requires teamPk.value !in TeamIds(ManagedTeams(db, other))
    ensures AvailabilityList(AvailabilityCreate(db, user, teamPk, day, start, end, newId).value, other) ==
      AvailabilityList(db, other)
  {
    var a := NewSlot(newId, teamPk.value, day, start, end);
    var ids := TeamIds(ManagedTeams(db, other));
    FilterAppend(db.slots, a, (b: Availability) => b.teamId in ids);
  }

  // ---------------------------------------------------------------------------
  // Chat

  /** The white space the serializer trims from a text field. */
  predicate IsSpace(c: char) {
    c in {' ', '\t', '\n', '\r'}
  }

  /** Whether `content` is empty once the serializer has trimmed white space:
      a required text field then refuses it. */
  predicate IsBlank(content: string) {
    forall i :: 0 <= i < |content| ==> IsSpace(content[i])
  }

  /** The index of the first non-space character of `s` at or after `k`, or
      `|s|` when there is none: where `s.lstrip()` starts. */
  function LeadEnd(s: string, k: nat): (n: nat)
    requires k <= |s|
    ensures k <= n <= |s|
    ensures forall j :: k <= j < n ==> IsSpace(s[j])
    ensures n < |s| ==> !IsSpace(s[n])
    decreases |s| - k
  {
    if k < |s| && IsSpace(s[k]) then LeadEnd(s, k + 1) else k
  }

  /** The end of `s[lo..k]` once its trailing white space is dropped: where
      `s.rstrip()` ends, when `lo` is where `s.lstrip()` starts. */
  function TrailStart(s: string, lo: nat, k: nat): (m: nat)
    requires lo <= k <= |s|
    ensures lo <= m <= k
    ensures forall j :: m <= j < k ==> IsSpace(s[j])
    ensures m > lo ==> !IsSpace(s[m - 1])
    decreases k
  {
    if k > lo && IsSpace(s[k - 1]) then TrailStart(s, lo, k - 1) else k
  }

  /** `s.strip()`, which the serializer's `trim_whitespace` applies: the
      longest segment of `s` that neither starts nor ends with white space,
      with only white space around it. */
  function Strip(s: string): (r: string)
    ensures r == [] <==> IsBlank(s)
    ensures r != [] ==> !IsSpace(r[0]) && !IsSpace(r[|r| - 1])
    ensures exists i :: 0 <= i <= |s| - |r| && r == s[i..i + |r|] && IsBlank(s[..i]) && IsBlank(s[i + |r|..])
  {
    var i := LeadEnd(s, 0);
    var e := TrailStart(s, i, |s|);
    StripBounds(s, i, e);
    s[i..e]
  }

  /** The segment between `LeadEnd` and `TrailStart` has only white space
      around it, and is empty exactly when `s` is blank. */
  lemma StripBounds(s: string, i: nat, e: nat)
    requires i == LeadEnd(s, 0) && i <= e <= |s| && e == TrailStart(s, i, |s|)
    ensures IsBlank(s[..i]) && IsBlank(s[e..])
    ensures e == i <==> IsBlank(s)
  {
    assert forall k :: 0 <= k < i ==> s[..i][k] == s[k];
    assert forall k :: 0 <= k < |s| - e ==> s[e..][k] == s[e + k];
  }

  lemma StripIdempotent(s: string)
    ensures Strip(Strip(s)) == Strip(s)
  {
    var r := Strip(s);
    if r != [] {
      assert LeadEnd(r, 0) == 0;
      assert TrailStart(r, 0, |r|) == |r|;
      assert r[0..|r|] == r;
    }
  }

  /** `" hi\n"` is saved as `"hi"`. */
  lemma StripExample()
    ensures Strip(" hi\n") == "hi"
  {
    var s := " hi\n";
    assert LeadEnd(s, 1) == 1;
    assert LeadEnd(s, 0) == 1;
    assert TrailStart(s, 1, 3) == 3;
    assert TrailStart(s, 1, 4) == 3;
    assert s[1..3] == "hi";
  }

  /** The NUL character, which the text field refuses. */
  const Nul: char := '\0'

  /** Whether the serializer accepts `content`: not blank once trimmed, and
      free of NUL characters. */
  predicate AcceptedContent(content: string) {
    !IsBlank(content) && Nul !in content
  }

  /** Python truthiness of the `match_request_pk` URL argument: a missing key
      and the key `0` are both false. */
  predicate KeyGiven(pk: Option<int>) {
    pk.Some? && pk.value != 0
  }

  /** `ChatMessageViewSet.get_queryset`: a missing or zero request key gives
      an empty list; an unknown request is a 404; a user managing neither
      team is denied; anyone else gets exactly that request's messages, each
      once per stored row, in timestamp order. */
  function ChatList(db: Db, pk: Option<int>, user: UserId): (r: Result<seq<ChatMessage>, Http.Error>)
    ensures !KeyGiven(pk) ==> r == Success([])
    ensures KeyGiven(pk) && FindRequest(db.requests, pk.value).None? ==> r == Failure(Http.NotFound)
    ensures KeyGiven(pk) && FindRequest(db.requests, pk.value).Some? ==>
      (r.Success? <==> Permissions.IsMatchParticipant(Authenticated(user), FindRequest(db.requests, pk.value).value))
    ensures r.Failure? ==> r.error == Http.NotFound || r.error == Http.PermissionDenied
    ensures KeyGiven(pk) && r.Success? ==>
      && SortedBy(r.value, TimestampLe)
      && (forall m :: m in r.value <==> m in db.messages && m.matchRequestId == pk.value)
      && (forall m :: multiset(r.value)[m] == (if m.matchRequestId == pk.value then multiset(db.messages)[m] else 0))
  {
    if !KeyGiven(pk) then Success([])
    else
      match FindRequest(db.requests, pk.value)
      case None => Failure(Http.NotFound)
      case Some(req) =>
        if !Permissions.IsMatchParticipant(Authenticated(user), req) then Failure(Http.PermissionDenied)
        else Success(Thread(db.messages, pk.value))
  }

  /** The message `perform_create` saves: the content as the serializer
      trimmed it, the sender is the user and the sender team is the user's
      team of least id, if any. */
  function NewMessage(db: Db, id: int, requestId: int, user: UserId, now: int, content: string): (m: ChatMessage)
    ensures m.matchRequestId == requestId && m.sender == user && m.content == Strip(content) && m.timestamp == now
    ensures m.senderTeamId.Some? <==> exists t :: t in db.teams && t.manager == user
    ensures m.senderTeamId.Some? ==> m.senderTeamId == Some(FirstManagedTeam(db, user).value.id)
  {
    var team := FirstManagedTeam(db, user);
    ChatMessage(id, requestId, user, now, Strip(content), if team.Some? then Some(team.value.id) else None)
  }

  /** `ChatMessageViewSet.create` as written: content that is blank or holds
      a NUL character is a 400 and an unknown request a 404; there is no participant check, so any signed-in
      user can post into any request's chat. */
  function ChatCreate(db: Db, pk: Option<int>, user: UserId, content: string, now: int, newId: int)
    : (r: Result<Db, Http.Error>)
    ensures !AcceptedContent(content) ==> r == Failure(Http.BadRequest)
    ensures AcceptedContent(content) && (pk.None? || FindRequest(db.requests, pk.value).None?) ==>
      r == Failure(Http.NotFound)
    ensures r.Success? <==> AcceptedContent(content) && pk.Some? && FindRequest(db.requests, pk.value).Some?
    ensures r.Success? ==>
      && r.value.teams == db.teams && r.value.slots == db.slots && r.value.requests == db.requests
      && r.value.messages == db.messages + [NewMessage(db, newId, pk.value, user, now, content)]
  {
    if !AcceptedContent(content) then Failure(Http.BadRequest)
    else if pk.None? then Failure(Http.NotFound)
    else
      match FindRequest(db.requests, pk.value)
      case None => Failure(Http.NotFound)
      case Some(req) => Success(db.(messages := db.messages + [NewMessage(db, newId, req.id, user, now, content)]))
  }

  /** `ChatMessageViewSet.create` with the participant check that listing
      applies: a user managing neither team of a stored request is denied
      before anything is saved; every other call is `ChatCreate`. */
  function ChatCreateChecked(db: Db, pk: Option<int>, user: UserId, content: string, now: int, newId: int)
    : (r: Result<Db, Http.Error>)
    ensures !AcceptedContent(content) ==> r == Failure(Http.BadRequest)
    ensures AcceptedContent(content) && (pk.None? || FindRequest(db.requests, pk.value).None?) ==>
      r == Failure(Http.NotFound)
    ensures r.Success? <==>
      && AcceptedContent(content) && pk.Some? && FindRequest(db.requests, pk.value).Some?
      && Permissions.IsMatchParticipant(Authenticated(user), FindRequest(db.requests, pk.value).value)
    ensures r.Failure? && AcceptedContent(content) && pk.Some? && FindRequest(db.requests, pk.value).Some? ==>
      r.error == Http.PermissionDenied
    ensures r.Success? ==>
      && r.value.teams == db.teams && r.value.slots == db.slots && r.value.requests == db.requests
      && r.value.messages == db.messages + [NewMessage(db, newId, pk.value, user, now, content)]
  {
    if && AcceptedContent(content) && pk.Some? && FindRequest(db.requests, pk.value).Some?
       && !Permissions.IsMatchParticipant(Authenticated(user), FindRequest(db.requests, pk.value).value)
    then Failure(Http.PermissionDenied)
    else ChatCreate(db, pk, user, content, now, newId)
  }

  /** As written, a user who may not read a chat can still write into it:
      the post succeeds and the message joins the thread the participants
      read, while the checked create refuses it. Under the key `0` the
      listing answers an empty list to everyone instead of refusing. */
  lemma OutsiderCanPost(db: Db, pk: int, user: UserId, content: string, now: int, newId: int)
    requires AcceptedContent(content)
    requires FindRequest(db.requests, pk).Some?
    requires !Permissions.IsMatchParticipant(Authenticated(user), FindRequest(db.requests, pk).value)
    ensures pk != 0 ==> ChatList(db, Some(pk), user) == Failure(Http.PermissionDenied)
    ensures pk == 0 ==> ChatList(db, Some(pk), user) == Success([])
    ensures ChatCreate(db, Some(pk), user, content, now, newId).Success?
    ensures NewMessage(db, newId, pk, user, now, content) in
      Thread(ChatCreate(db, Some(pk), user, content, now, newId).value.messages, pk)
    ensures ChatCreateChecked(db, Some(pk), user, content, now, newId) == Failure(Http.PermissionDenied)
  {
    var db' := ChatCreate(db, Some(pk), user, content, now, newId).value;
    ModelLemmas.MessageJoinsThread(db.messages, NewMessage(db, newId, pk, user, now, content));
  }

  /** A participant's post is listed back to them: the chat they read grows
      by exactly that message. Under the key `0` the listing stays empty. */
  lemma ParticipantPostIsListed(db: Db, pk: int, user: UserId, content: string, now: int, newId: int)
    requires ChatCreateChecked(db, Some(pk), user, content, now, newId).Success?
    ensures var db' := ChatCreateChecked(db, Some(pk), user, content, now, newId).value;
      && ChatList(db', Some(pk), user).Success?
      && (pk != 0 ==> NewMessage(db, newId, pk, user, now, content) in ChatList(db', Some(pk), user).value)
      && (pk != 0 ==> |ChatList(db', Some(pk), user).value| == |ChatList(db, Some(pk), user).value| + 1)
      && (pk == 0 ==> ChatList(db', Some(pk), user).value == [])
  {
    var db' := ChatCreateChecked(db, Some(pk), user, content, now, newId).value;
    assert FindRequest(db'.requests, pk) == FindRequest(db.requests, pk);
    ModelLemmas.MessageJoinsThread(db.messages, NewMessage(db, newId, pk, user, now, content));
  }

  /** `ChatMessageViewSet.update`: refused with 405 whoever asks and whatever
      the message, so a stored message never changes through the API. */
  function ChatUpdate(db: Db, pk: Option<int>, messageId: int, user: UserId, content: string)
    : (r: Result<Db, Http.Error>)
    ensures r.Failure? && r.error.StatusCode() == 405
  {
    Failure(Http.MethodNotAllowed)
  }

  /** `ChatMessageViewSet.destroy`: refused with 405 whoever asks. */
  function ChatDestroy(db: Db, pk: Option<int>, messageId: int, user: UserId): (r: Result<Db, Http.Error>)
    ensures r.Failure? && r.error.StatusCode() == 405
  {
    Failure(Http.MethodNotAllowed)
  }
}
