/** The `send_reminders` management command: which match requests get a
    reminder, and what the reminders say. The clock is the `now` argument;
    datetimes are whole seconds. */
module Reminders {
  import opened Seqs
  import opened Strings
  import opened Models
  import Admin

  /** `timedelta(hours=24)`, in seconds. */
  const Day: int := 24 * 60 * 60

  /** `match_time__gte=now, match_time__lt=now + 24h`: a half-open window. */
  predicate InWindow(now: int, matchTime: int) {
    now <= matchTime < now + Day
  }

  /** The status literal the command filters on. */
  const AcceptedLiteral: string := "ACCEPTED"

  /** The requests of `requests` whose status is `status` and whose match falls
      in the window, in the model's newest-first order. */
  function SelectWithStatus(requests: seq<MatchRequest>, now: int, status: string): (r: seq<MatchRequest>)
    ensures forall q :: q in r <==> q in requests && q.status == status && InWindow(now, q.matchTime)
    ensures forall q ::
      multiset(r)[q] == (if q.status == status && InWindow(now, q.matchTime) then multiset(requests)[q] else 0)
    ensures SortedBy(r, NewestFirst)
  {
    NewestFirstTotalPreorder();
    var p := (q: MatchRequest) => q.status == status && InWindow(now, q.matchTime);
    FilterMultiset(requests, p);
    var r := SortBy(Filter(requests, p), NewestFirst);
    assert forall q :: q in r <==> q in multiset(r);
    r
  }

  /** The selection as written: status `'ACCEPTED'`, which no stored code equals. */
  function SelectAsWritten(requests: seq<MatchRequest>, now: int): (r: seq<MatchRequest>)
    ensures forall q :: q in r <==> q in requests && q.status == AcceptedLiteral && InWindow(now, q.matchTime)
    ensures forall q :: q in r ==> !IsStatusCode(q.status)
    ensures forall q ::
      multiset(r)[q] == (if q.status == AcceptedLiteral && InWindow(now, q.matchTime) then multiset(requests)[q] else 0)
  {
    AcceptedLiteralIsNoCode();
    SelectWithStatus(requests, now, AcceptedLiteral)
  }

  /** The selection the command's help text describes: accepted requests,
      stored with the code `'A'`, whose match is in the next 24 hours. */
  function Select(requests: seq<MatchRequest>, now: int): (r: seq<MatchRequest>)
    ensures forall q :: q in r <==> q in requests && IsAccepted(q) && InWindow(now, q.matchTime)
    ensures forall q :: q in r ==> IsStatusCode(q.status)
    ensures forall q ::
      multiset(r)[q] == (if IsAccepted(q) && InWindow(now, q.matchTime) then multiset(requests)[q] else 0)
    ensures SortedBy(r, NewestFirst)
  {
    assert IsStatusCode("A") by { assert StatusChoices[1].0 == "A"; }
    SelectWithStatus(requests, now, "A")
  }

  /** `AcceptedLiteral` is not one of the four stored status codes. */
  lemma AcceptedLiteralIsNoCode()
    ensures !IsStatusCode(AcceptedLiteral)
  {
    forall i | 0 <= i < |StatusChoices| ensures StatusChoices[i].0 != AcceptedLiteral {
      assert |StatusChoices[i].0| == 1;
    }
  }

  /** `f"{match.location[:50]}..."`: the first 50 characters of the location,
      and always `...` after them, however short the location is. */
  function LocationSnippet(location: string): (r: string)
    ensures |r| == (if |location| <= 50 then |location| else 50) + 3
    ensures r[..|r| - 3] == location[..|r| - 3]
    ensures r[|r| - 3..] == "..."
  {
    Take(location, 50) + "..."
  }

  /** The snippet agrees with the admin preview on a location longer than 50
      characters, and differs from it on every shorter one, which the
      preview shows unchanged and the snippet still ends with `...`. */
  lemma SnippetAgainstPreview(location: string)
    ensures |location| > 50 ==> LocationSnippet(location) == Admin.ContentPreview(location)
    ensures |location| <= 50 ==> LocationSnippet(location) == Admin.ContentPreview(location) + "..."
  {
  }

  /** The parts of one reminder line; the time is shown with `strftime`,
      which the model leaves as the stored datetime. */
  datatype Reminder = Reminder(requesterName: string, receiverName: string, matchTime: int, location: string)

  /** What one run reports: the notice that nothing is upcoming, or the
      reminders followed by the count line. */
  datatype Outcome = NoUpcoming | Sent(reminders: seq<Reminder>, count: int)

  /** The loop of `handle` over a selection, one reminder per request in order. */
  function Remind(selected: seq<MatchRequest>): (o: Outcome)
    ensures o.NoUpcoming? <==> selected == []
    ensures o.Sent? ==> o.count == |selected| && |o.reminders| == |selected|
    ensures o.Sent? ==> forall i :: 0 <= i < |selected| ==>
      && o.reminders[i].requesterName == selected[i].requester.name
      && o.reminders[i].receiverName == selected[i].receiver.name
      && o.reminders[i].matchTime == selected[i].matchTime
      && o.reminders[i].location == LocationSnippet(selected[i].location)
  {
    if selected == [] then NoUpcoming
    else
      Sent(seq(|selected|, i requires 0 <= i < |selected| =>
             Reminder(selected[i].requester.name, selected[i].receiver.name,
                      selected[i].matchTime, LocationSnippet(selected[i].location))),
           |selected|)
  }

  /** `handle` as written. */
  function RunAsWritten(requests: seq<MatchRequest>, now: int): (o: Outcome)
    ensures o.NoUpcoming? <==> SelectAsWritten(requests, now) == []
    ensures o.Sent? ==> o.count == |SelectAsWritten(requests, now)|
  {
    Remind(SelectAsWritten(requests, now))
  }

  /** `handle` with the stored code for accepted. */
  function Run(requests: seq<MatchRequest>, now: int): (o: Outcome)
    ensures o.NoUpcoming? <==> Select(requests, now) == []
    ensures o.Sent? ==> o.count == |Select(requests, now)|
  {
    Remind(Select(requests, now))
  }

  /** As written, the command never reminds anyone while every stored status
      is one of the four codes. */
  lemma AsWrittenNeverReminds(requests: seq<MatchRequest>, now: int)
    requires forall q :: q in requests ==> IsStatusCode(q.status)
    ensures SelectAsWritten(requests, now) == []
    ensures RunAsWritten(requests, now) == NoUpcoming
  {
    var r := SelectAsWritten(requests, now);
    assert forall x :: x !in r;
  }

  /** An accepted request whose match starts in an hour is reminded of by the
      corrected command and missed by the command as written. */
  lemma AcceptedMatchMissed(q: MatchRequest, now: int)
    requires q.status == "A" && q.matchTime == now + 60 * 60
    ensures RunAsWritten([q], now) == NoUpcoming
    ensures Run([q], now).Sent? && Run([q], now).count == 1
    ensures Run([q], now).reminders[0].location == LocationSnippet(q.location)
  {
    var r := Select([q], now);
    assert q in r;
    assert forall x :: x in r ==> x == q;
    assert |r| == 1 by {
      assert multiset(r)[q] == 1;
      assert |r| == |multiset(r)|;
      assert multiset(r) == multiset{q} by {
        forall x ensures multiset(r)[x] == multiset{q}[x] {
          if x != q {
            assert x !in r;
          }
        }
      }
    }
    AsWrittenNeverReminds([q], now);
  }

  /** The window is half-open: a match at `now` is selected, one exactly 24
      hours later is not, and neither is one already past. */
  lemma WindowEdges(q: MatchRequest, now: int)
    requires IsAccepted(q)
    ensures q.matchTime == now ==> q in Select([q], now)
    ensures q.matchTime == now + Day ==> Select([q], now) == []
    ensures q.matchTime < now ==> Select([q], now) == []
  {
    var r := Select([q], now);
    assert !InWindow(now, q.matchTime) ==> forall x :: x !in r;
  }
}
