/** What the helpers of teams/models.py promise, stated over all inputs. */
module ModelLemmas {
  import opened Wrappers
  import opened Seqs
  import opened Strings
  import opened Models
  import Http

  /** `other_team` of one participant is the other one. Naming the receiver
      gives back the requester only because the two differ. */
  lemma OtherTeamOfParticipants(r: MatchRequest)
    ensures OtherTeam(r, TeamObject(r.requester)) == Some(r.receiver)
    ensures RequesterNotReceiver(r) ==> OtherTeam(r, TeamObject(r.receiver)) == Some(r.requester)
    ensures !RequesterNotReceiver(r) ==> OtherTeam(r, TeamObject(r.receiver)) == Some(r.receiver)
  {
  }

  /** A team instance and its primary key give the same answer. */
  lemma OtherTeamObjectOrPk(r: MatchRequest, t: Team)
    ensures OtherTeam(r, TeamObject(t)) == OtherTeam(r, TeamPk(t.id))
  {
  }

  /** Under the check constraint `other_team` never answers with its argument,
      and applying it twice to a participant gives that participant back. */
  lemma OtherTeamInvolution(r: MatchRequest, t: Team)
    requires RequesterNotReceiver(r)
    requires t == r.requester || t == r.receiver
    ensures OtherTeam(r, TeamObject(t)).Some?
    ensures OtherTeam(r, TeamObject(t)).value.id != t.id
    ensures OtherTeam(r, TeamObject(OtherTeam(r, TeamObject(t)).value)) == Some(t)
  {
  }

  /** A team that takes no part in the request has no other team. */
  lemma OtherTeamOfOutsider(r: MatchRequest, ref: TeamRef)
    requires Pk(ref) != r.requester.id && Pk(ref) != r.receiver.id
    ensures OtherTeam(r, ref) == None
  {
  }

  /** Creating a request of a team against itself is refused (the
      self-request test), whichever instances carry the shared id. */
  lemma SelfRequestRefused(id: int, a: Team, b: Team, matchTime: int, location: string, createdAt: int)
    requires a.id == b.id
    ensures NewMatchRequest(id, a, b, matchTime, location, createdAt) == Failure(Http.IntegrityError)
  {
  }

  /** The status codes are exactly P, A, R and C, and the default is one of them. */
  lemma StatusCodesExact(s: string)
    ensures IsStatusCode(s) <==> s == "P" || s == "A" || s == "R" || s == "C"
    ensures IsStatusCode(DefaultStatus)
  {
    assert StatusChoices[0].0 == "P" && StatusChoices[1].0 == "A";
    assert StatusChoices[2].0 == "R" && StatusChoices[3].0 == "C";
  }

  /** At most one status predicate holds, and a cancelled request satisfies none. */
  lemma StatusPredicatesExclusive(r: MatchRequest)
    ensures !(IsPending(r) && IsAccepted(r))
    ensures !(IsPending(r) && IsRejected(r))
    ensures !(IsAccepted(r) && IsRejected(r))
    ensures r.status == "C" ==> !IsPending(r) && !IsAccepted(r) && !IsRejected(r)
    ensures IsStatusCode(r.status) && r.status != "C" ==> IsPending(r) || IsAccepted(r) || IsRejected(r)
  {
    StatusCodesExact(r.status);
  }

  /** `is_requester` is false for an anonymous user and otherwise holds exactly
      when the user manages the requesting team; managing the receiver only is
      not enough. */
  lemma IsRequesterExactly(r: MatchRequest, user: User)
    ensures user.Anonymous? ==> !IsRequester(r, user)
    ensures IsRequester(r, user) <==> ManagedBy(r.requester, user)
    ensures ManagedBy(r.receiver, user) && !ManagedBy(r.requester, user) ==> !IsRequester(r, user)
  {
  }

  /** `get_available_slots` keeps exactly the team's slots, narrowed to one
      day when a non-empty day code is given; every kept slot is as often in
      the result as it is stored. */
  lemma AvailableSlotsContents(slots: seq<Availability>, team: Team, dayCode: Option<string>)
    ensures forall a :: a in GetAvailableSlots(slots, team, dayCode) <==>
      a in slots && a.teamId == team.id && (Truthy(dayCode) ==> a.day == dayCode.value)
    ensures !Truthy(dayCode) ==> forall a :: a in GetAvailableSlots(slots, team, dayCode) <==>
      a in slots && a.teamId == team.id
    ensures |GetAvailableSlots(slots, team, dayCode)| <= |slots|
  {
    var r := GetAvailableSlots(slots, team, dayCode);
    forall a ensures a in r <==> a in slots && SlotSelected(a, team, dayCode) {
      assert a in r <==> a in multiset(r);
    }
    var f := Filter(slots, (a: Availability) => SlotSelected(a, team, dayCode));
    assert multiset(r) == multiset(f) by {
      forall a ensures multiset(r)[a] == multiset(f)[a] { }
    }
    assert |r| == |multiset(r)| == |multiset(f)| == |f|;
  }

  /** The slot order compares day codes as strings: a Friday slot is listed
      before a Monday slot, unlike the calendar. */
  lemma SlotOrderIsAlphabetical(team: Team, mon: Availability, fri: Availability)
    requires mon.teamId == team.id && mon.day == "MON"
    requires fri.teamId == team.id && fri.day == "FRI"
    ensures GetAvailableSlots([mon, fri], team, None) == [fri, mon]
  {
    var r := GetAvailableSlots([mon, fri], team, None);
    BothSelected(r, [mon, fri], team);
    FriBeforeMon();
    SortedPair(r, fri, mon);
  }

  lemma FriBeforeMon()
    ensures !StrLe("MON", "FRI") && StrLe("FRI", "MON")
  {
  }

  /** When every stored slot belongs to the team, the unfiltered slot list
      holds the stored slots. */
  lemma BothSelected(r: seq<Availability>, slots: seq<Availability>, team: Team)
    requires r == GetAvailableSlots(slots, team, None)
    requires forall a :: a in slots ==> a.teamId == team.id
    ensures multiset(r) == multiset(slots)
  {
    forall a ensures multiset(r)[a] == multiset(slots)[a] {
      if multiset(slots)[a] > 0 {
        assert a in slots;
      }
    }
  }

  /** A sorted sequence holding exactly `lo` and `hi`, where `hi` does not
      sort before `lo`, is `[lo, hi]`. */
  lemma SortedPair(r: seq<Availability>, lo: Availability, hi: Availability)
    requires SortedBy(r, SlotLe)
    requires multiset(r) == multiset([lo, hi])
    requires !SlotLe(hi, lo)
    ensures r == [lo, hi]
  {
    assert |r| == 2 by { assert |r| == |multiset(r)|; }
    assert r == [r[0], r[1]];
    assert multiset([r[0], r[1]]) == multiset([lo, hi]);
    assert r[0] in multiset([lo, hi]) && r[1] in multiset([lo, hi]);
    assert SlotLe(r[0], r[1]);
    assert r[0] != hi;
  }

  /** The serialised team lists only slots of the requested day when a day is
      given, and each start and end reads back as the stored time. */
  lemma TeamToDictOfDay(slots: seq<Availability>, team: Team, day: string)
    requires day != ""
    ensures var d := TeamToDict(slots, team, Some(day));
      forall e :: e in d.availabilities ==> e.day == day
  {
    var d := TeamToDict(slots, team, Some(day));
    var s := GetAvailableSlots(slots, team, Some(day));
    AvailableSlotsContents(slots, team, Some(day));
    forall e | e in d.availabilities ensures e.day == day {
      var i :| 0 <= i < |d.availabilities| && d.availabilities[i] == e;
      assert s[i] in s;
    }
  }

  /** A message saved for a request joins that request's thread, which grows
      by exactly one; the first message of a request is its whole thread (the
      chat-message test counts one). */
  lemma MessageJoinsThread(messages: seq<ChatMessage>, m: ChatMessage)
    ensures m in Thread(messages + [m], m.matchRequestId)
    ensures |Thread(messages + [m], m.matchRequestId)| == |Thread(messages, m.matchRequestId)| + 1
    ensures Thread(messages, m.matchRequestId) == [] ==> Thread(messages + [m], m.matchRequestId) == [m]
  {
    var id := m.matchRequestId;
    var before := Thread(messages, id);
    var after := Thread(messages + [m], id);
    assert multiset(messages + [m]) == multiset(messages) + multiset{m};
    forall x ensures multiset(after)[x] == (multiset(before) + multiset{m})[x] {
      assert multiset(after)[x] == (if x.matchRequestId == id then multiset(messages + [m])[x] else 0);
      assert multiset(before)[x] == (if x.matchRequestId == id then multiset(messages)[x] else 0);
    }
    GrowsByOne(after, before, m);
  }

  /** A sequence whose elements are those of `before` plus one `m`. */
  lemma GrowsByOne<T>(after: seq<T>, before: seq<T>, m: T)
    requires forall x :: multiset(after)[x] == (multiset(before) + multiset{m})[x]
    ensures m in after
    ensures |after| == |before| + 1
    ensures before == [] ==> after == [m]
  {
    assert multiset(after) == multiset(before) + multiset{m};
    assert m in multiset(after);
    assert |after| == |multiset(after)|;
    if before == [] {
      assert after[0] in multiset(after);
    }
  }
}
