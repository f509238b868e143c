# The-Roaster matchmaking core, in Dafny

The-Roaster is a Django site where amateur team managers do three things:

- publish their teams' weekly availability;
- find opponents that are free on a chosen day;
- exchange match requests and chat about them.

This project models the part of it that holds real logic. Everything is modelled as immutable records and pure functions over sequences, one sequence per database table:

- **Records:** teams, availability slots, match requests and chat messages.
- **Request helpers:** `other_team`, the status predicates and `is_requester`.
- **Access checks:** team manager and match participant.
- **Opponent finders:** the match-finder page and the matching API.
- **Dashboard:** how it sorts requests into buckets.
- **API view sets:** availability and chat.
- **Test-only rule:** the skill-window matching rule that only the test-suite states.
- **String helpers:** the admin preview, the day-name template filter and `HH:MM` formatting.
- **Reminder command:** how it selects requests.

How Django constructs are represented:

- A queryset is a `seq`.
- `filter` is `Seqs.Filter`.
- `order_by` is a sort specified as "sorted by the key, and a permutation of its input" (`Seqs.SortBy`). Ties are left in an unspecified order, as the database leaves them.
- Errors the views answer with (400, 403, 404, 405, or an unhandled `IntegrityError`) are the `Failure` side of a `Result`.
- Times of day are minutes since midnight.
- Datetimes are whole seconds.
- The clock is a `now` parameter.

Modules:

| module | file | models |
|---|---|---|
| `Wrappers`, `Http` | wrappers.dfy, http.dfy | `Option`/`Result`, the error answers |
| `Seqs`, `Strings` | seqs.dfy, strings.dfy | filtering, sorting, Python slicing, string order |
| `Models` | models.dfy | teams/models.py |
| `ModelLemmas` | model_lemmas.dfy | what the model helpers promise |
| `TeamFilters` | team_filters.dfy | teams/templatetags/team_filters.py |
| `Admin` | admin.dfy | `content_preview` of teams/admin.py |
| `Permissions` | permissions.dfy | the access checks and the request detail page of teams/views.py |
| `Dashboard` | dashboard.dfy | `DashboardView` |
| `Matchmaking` | matchmaking.dfy | `MatchFinderView` and `MatchingAPIView` |
| `ApiViews` | api_views.dfy | `AvailabilityViewSet` and `ChatMessageViewSet` |
| `MatchingRules` | matching_rules.dfy | the skill matching rule of teams/tests.py |
| `Reminders` | reminders.dfy | teams/management/commands/send_reminders.py |

## Model

| member | source | states |
|---|---|---|
| Models.NewMatchRequest | teams/models.py:77-101 | Creation fails with an integrity error exactly when requester and receiver have the same id. Otherwise the request keeps its arguments (id, both teams, match time, location, creation time), gets the default status `'P'`, which is one of the status codes, and satisfies the check constraint. |
| Models.IsPending | teams/models.py:128-129 | `is_pending`: the status is `'P'`. Its exclusivity with the other two is `ModelLemmas.StatusPredicatesExclusive`. |
| Models.IsAccepted | teams/models.py:131-132 | `is_accepted`: the status is `'A'`. |
| Models.IsRejected | teams/models.py:134-135 | `is_rejected`: the status is `'R'`. |
| Models.IsRequester | teams/models.py:137-142 | `is_requester`: a signed-in user who manages the requesting team. Its meaning is pinned by `ModelLemmas.IsRequesterExactly`. |
| Models.Valid | teams/models.py:4-101 | The database's guarantees about its rows: unique keys in every table, unique team names (line 6), the availability `unique_together` (lines 56-58), the requester-not-receiver check constraint (lines 94-101), and foreign keys that name stored rows. |
| Models.OtherTeam | teams/models.py:116-126 | There is an answer exactly when the given pk is the requester's or the receiver's. The answer is always one of the two teams. |
| Models.Thread | teams/models.py:144-153 | A request's messages are exactly the stored messages of that request, with their multiplicities, sorted by timestamp (the model's default ordering). |
| Models.SameIdSameTeam | teams/models.py:4-11 | With unique primary keys, two stored teams with the same id are the same team. |
| Models.FindTeam | teams/views.py:38-44 | A lookup by pk finds a stored team with that id. It finds nothing exactly when the pk is missing or is no stored team's id. |
| Models.FindRequest | teams/views.py:65 | `get_object_or_404` finds a stored request with that pk. It finds nothing exactly when no stored request has it. |
| Models.ManagedTeams | teams/views.py:255 | `user.managed_teams` holds exactly the stored teams whose manager is the user, each as often as it is stored. |
| Models.LeastId | teams/views.py:291 | `.first()` on an unordered queryset gives nothing exactly for an empty queryset. Otherwise it gives a member whose id is no larger than any other's. |
| Models.FirstManagedTeam | teams/views.py:291 | The user's first team is absent exactly when the user manages no team. Otherwise it is a team the user manages, of least id. |
| Models.GetAvailableSlots | teams/models.py:13-22 | The slots are sorted by day code (as a string) and then start time. Each slot is present exactly as often as it is stored when it belongs to the team and, given a truthy day code, falls on that day. No other slot is present. |
| Models.FormatHHMM | teams/models.py:37-38 | `%H:%M` gives five characters: two digits, a colon, two digits. |
| Models.FormatThenParse | teams/models.py:63-65 | Reading a formatted time back gives the time. |
| Models.ParseThenFormat | teams/models.py:63-65 | Every string that reads as a time is the formatting of that time, so formatting is a bijection onto well-formed `HH:MM`. |
| Models.FormatTime | teams/models.py:63-65 | `format_time` gives `''` exactly for a missing time. Otherwise it gives a string that reads back as the time. |
| Models.SlotToDict | teams/models.py:67-73 | The slot dictionary keeps the day code, and its start and end read back as the slot's times. |
| Models.TeamToDict | teams/models.py:24-42 | The team dictionary keeps id, name and location. It has one entry per slot of `get_available_slots(day_code)`, in the same order, each with that slot's day and times. |
| ModelLemmas.OtherTeamOfParticipants | teams/models.py:116-126 | The other team of the requester is the receiver. The other team of the receiver is the requester only because the two differ; a self-request would answer with the receiver. |
| ModelLemmas.OtherTeamObjectOrPk | teams/models.py:116-126 | A team instance and its pk give the same answer. |
| ModelLemmas.OtherTeamInvolution | teams/models.py:94-101 | Under the check constraint, `other_team` of a participant is the other participant and never the argument. Applying it twice gives the participant back. |
| ModelLemmas.OtherTeamOfOutsider | teams/models.py:116-126 | A pk that is neither participant's gives `None`. |
| ModelLemmas.SelfRequestRefused | teams/tests.py:22-29 | A request of a team against itself is refused with an integrity error. |
| ModelLemmas.StatusCodesExact | teams/models.py:77-85 | The status codes are exactly P, A, R and C, and the default is one of them. |
| ModelLemmas.StatusPredicatesExclusive | teams/models.py:128-135 | At most one of `is_pending`, `is_accepted` and `is_rejected` holds. None holds for `'C'`. One holds for any other status code. |
| ModelLemmas.IsRequesterExactly | teams/models.py:137-142 | `is_requester` is false for an anonymous user. Otherwise it holds exactly when the user manages the requester; managing only the receiver is not enough. |
| ModelLemmas.AvailableSlotsContents | teams/models.py:13-22 | The slot list holds exactly the team's slots of the given day, or all of the team's slots without a day. It is never longer than the stored slots. |
| ModelLemmas.SlotOrderIsAlphabetical | teams/models.py:22 | A Monday and a Friday slot are listed Friday first: the day order is alphabetical on codes, not the calendar's. |
| ModelLemmas.TeamToDictOfDay | teams/models.py:24-42 | Given a day, every serialised slot is of that day. |
| ModelLemmas.MessageJoinsThread | teams/tests.py:31-44 | A saved message joins its request's messages, which grow by exactly one. The first message is the whole thread. |
| TeamFilters.DictGet | teams/templatetags/team_filters.py:9-10 | `dict(pairs).get(key)` is absent exactly when no pair has the key. Otherwise it is the value of the last pair with that key, as a later pair overrides an earlier one in a Python dict. |
| TeamFilters.GetDayDisplay | teams/templatetags/team_filters.py:6-10 | The `get_day_display` filter: a string that is not a day code is returned as it is. A day code gives the full name paired with it in the day choices. |
| TeamFilters.DisplayOfCode | teams/templatetags/team_filters.py:9-10 | Each of the seven day codes shows as its own full name. |
| TeamFilters.SevenDayNames | teams/models.py:46-50 | MON…SUN show as Monday…Sunday. |
| TeamFilters.NonCodeUnchanged | teams/templatetags/team_filters.py:10 | Any string that is not a day code is returned unchanged. |
| TeamFilters.NamesAreNotCodes | teams/models.py:46-50 | No full day name is a day code. |
| TeamFilters.DisplayInjectiveOnCodes | teams/models.py:46-50 | Distinct codes show as distinct names. |
| TeamFilters.DisplayIdempotent | teams/templatetags/team_filters.py:9-10 | Applying the filter twice is the same as applying it once. |
| Admin.ContentPreview | teams/admin.py:60-62 | The preview is never longer than 53 characters and always starts with the first min(50, len) characters. Content of at most 50 characters is returned unchanged. Longer content becomes exactly 53 characters ending in `...`, so it is unchanged exactly when it already was 53 characters ending in `...`. |
| Admin.PreviewBoundary | teams/admin.py:62 | Exactly 50 characters are shown whole; one more character gives the first 50 and `...`. |
| Permissions.IsTeamManager | teams/views.py:38-44 | The check passes only for an existing team with that pk that the user manages. A missing pk or team is a refusal. With unique keys it is an if-and-only-if. |
| Permissions.IsMatchParticipant | teams/views.py:51-56 | `has_object_permission`: the user manages the requester or the receiver. |
| Permissions.ParticipantSymmetric | teams/views.py:51-56 | Being a participant does not depend on which team sent the request. The requester's manager is a participant. A participant who did not send it manages the receiver. An anonymous user is never a participant. |
| Permissions.ParticipantsOtherTeam | teams/views.py:51-56 | A participant's side of a valid request has the other side as its other team. |
| Permissions.MatchRequestDetail | teams/views.py:60-73 | For the signed-in user the view admits: a missing request is a 404, and a user managing neither team gets PermissionDenied. Success happens exactly for a participant, who gets the request and exactly its messages, each once per stored row, in timestamp order. |
| Permissions.OutsiderDenied | teams/views.py:68-69 | A user managing neither team of a stored request is always denied. |
| Dashboard.UserRequests | teams/views.py:140-142 | The requests to or from any of the user's teams, each once per stored row, newest first, and no others. |
| Dashboard.Outgoing | teams/views.py:145 | Exactly the stored requests sent by the current team with a status code, each once per stored row, newest first. |
| Dashboard.Incoming | teams/views.py:146 | Exactly the stored requests received by the current team with a status code, each once per stored row, newest first. |
| Dashboard.Active | teams/views.py:153 | Exactly the user's requests that are accepted or cancelled, each once per stored row, newest first. |
| Dashboard.History | teams/views.py:154 | Exactly the user's rejected requests, each once per stored row, newest first. |
| Dashboard.LastMatchDate | teams/views.py:127-129 | `Max('outgoing_requests__match_time')`: absent exactly when the team sent no request. Otherwise it is the match time of one of its sent requests and no earlier than any of them. |
| Dashboard.LaterMatchListedFirst | teams/views.py:127-130 | In `user_teams` ordered by `-last_match_date`, of two teams that both sent requests, the one with the later latest match is listed first. |
| Dashboard.CurrentTeamIsLatest | teams/views.py:127-136 | The ordered `user_teams` holds exactly the user's teams. It is empty exactly when the user manages none. If its first team sent a request, no managed team's latest match is later than its own. A first team that sent none says nothing of the others, since a database may list teams without a date first. |
| Dashboard.DashboardContext | teams/views.py:122-157 | There is a context exactly when the user manages a team. It holds the user's teams, each once per stored row, in the database's `-last_match_date` order. The current team is the first of them. If it sent a request, no managed team's latest match is later than its own; if it sent none, it may still be current while another team has a date, as on a database that lists nulls first. Outgoing and incoming are the current team's sent and received requests in any of the four statuses, and the pending count is the sum of their sizes. Active is exactly the user's requests in A or C, and history those in R. Every list holds each request once per stored row, so the pending count is fixed. All four lists are newest first. |
| Dashboard.BucketsPartition | teams/views.py:145-154 | On a valid database, no request is both outgoing and incoming. Every request of the current team with a status code is in one of the two. Active and history are disjoint, and a pending request is in neither. |
| Matchmaking.DaySlots | teams/views.py:268-272 | The slots attached to a team are that team's slots of the day, with their multiplicities, in start-time order. |
| Matchmaking.DaySlotsContents | teams/views.py:263-272 | A listed slot is a slot of the team on the day. The team has listed slots exactly when it is available that day. |
| Matchmaking.Opponents | teams/views.py:263-273 | The opponent list holds exactly the stored teams not excluded that have a slot on the day, each with its day slots. With unique keys, each team is listed once. |
| Matchmaking.MatchFinder | teams/views.py:252-273 | Without a truthy day nothing is listed. Otherwise the page lists exactly the teams with a slot that day whose id is not one of the user's teams, each with its day slots in start order, each once. |
| Matchmaking.FinderListsOthersAvailable | teams/views.py:260-273 | With unique keys, a stored team is listed exactly when the user does not manage it and it has a slot on the day. |
| Matchmaking.MatchingApi | teams/views.py:289-313 | A missing day is a 400 before a user without a team is a 403. Success happens exactly with a day and a team. It lists exactly the teams with a slot that day except the user's first team, each once. |
| Matchmaking.ApiOffersUsersOtherTeams | teams/views.py:300-303 | A team of the user other than its first, available on the day, is offered by the API but never by the finder page. |
| ApiViews.AvailabilityList | teams/views.py:323-325 | The listed slots are exactly the stored slots whose team id is one of the user's teams, with their multiplicities. |
| ApiViews.AvailabilityListIsOwnSlots | teams/views.py:323-325 | With unique keys, a stored slot is listed exactly when a team the user manages owns it. |
| ApiViews.AvailabilityCreate | teams/views.py:327-331 | A day that is not a code is a 400. Otherwise a pk that is not one of the user's teams is a 404. Otherwise a repeated `unique_together` key is an integrity error. Success happens exactly when none of these apply, and then only the new slot is appended. |
| ApiViews.AvailabilityCreateKeepsValid | teams/models.py:56-58 | A created slot under an unused key keeps the database valid: unique keys, `unique_together` and a stored team. It belongs to a team the user manages and shows up in the user's list. |
| ApiViews.AvailabilityCreateOthersUnchanged | teams/views.py:323-331 | Creating a slot leaves the list of any user who does not own that team unchanged. |
| ApiViews.ChatList | teams/views.py:343-354 | A missing or zero request pk (falsy in Python) gives an empty list. Otherwise an unknown request is a 404. Success for a known request happens exactly for a participant, and any other failure is PermissionDenied. The result is exactly that request's messages, each once per stored row, in timestamp order. |
| ApiViews.NewMessage | teams/views.py:356-362 | The saved message has the user as sender and the given request and time. Its content is the given content trimmed of surrounding white space, as the serializer's `trim_whitespace` stores it. Its sender team is the user's first team exactly when the user manages one. |
| ApiViews.ChatCreate | teams/views.py:356-362 | As written: content that is blank or holds a NUL character is a 400, and an unknown request a 404. Otherwise the message is appended, whoever the user is, and nothing else changes. |
| ApiViews.ChatCreateChecked | teams/views.py:350-362 | The participant check of the listing followed by the create as written: success happens exactly for a participant, a known request and accepted content. Otherwise it is a 400, a 404 or PermissionDenied, and nothing is saved. |
| ApiViews.OutsiderCanPost | teams/views.py:343-362 | A user refused by the chat listing can still post into the same chat as written, and the message joins the thread participants read. The checked create refuses the user. Under pk 0 the listing answers an empty list instead of refusing. |
| ApiViews.ParticipantPostIsListed | teams/views.py:343-362 | After a participant's checked post, the participant's chat listing holds the message and has grown by exactly one. Under pk 0 it stays empty. |
| ApiViews.Strip | teams/serializers.py:37-43 | The trimming the serializer's `content` field (a generated `CharField` with `trim_whitespace`) applies before the save of teams/views.py:362: the result is empty exactly for blank content. Otherwise it starts and ends with a visible character and is a segment of the content with only white space around it. |
| ApiViews.StripIdempotent | teams/serializers.py:37-43 | Trimming twice is trimming once. |
| ApiViews.StripExample | teams/views.py:362 | `" hi\n"` is saved as `"hi"`. |
| ApiViews.ChatUpdate | teams/views.py:364-365 | Update always answers 405. |
| ApiViews.ChatDestroy | teams/views.py:367-368 | Destroy always answers 405. |
| MatchingRules.SkillWindow | teams/tests.py:82-83 | The clamped window holds exactly the skills 1..4 at most one away from the target. It is empty only for a target more than one step off the scale, and it holds every on-scale target. |
| MatchingRules.TestWindows | teams/tests.py:82-83 | Skill 3 gives 2..4 and skill 1 gives 1..2 (lines 107-108). |
| MatchingRules.SkillRange | teams/tests.py:71 | The range filter holds exactly the stored teams in the window other than the excluded pk, each once under unique keys. |
| MatchingRules.SkillMatches | teams/tests.py:85-94 | With unique keys, a team matches exactly when it is stored, its skill is near the target, the searcher does not manage it, and it has a slot on the day. Each match is listed once. |
| MatchingRules.DistinctCount | teams/tests.py:75 | Teams with distinct keys are as many as their keys, which is what `count()` of the filtered queryset counts. |
| MatchingRules.FixtureSkillRange | teams/tests.py:69-75 | In the test fixture, skills 2..4 without Team X find A, B and C and nothing else: three teams. |
| MatchingRules.FixtureMondayMatches | teams/tests.py:77-100 | Skill 3 on Monday for manager 1 matches A and C, not B (Tuesday only) and not the searcher's X: two teams. |
| MatchingRules.FixtureNoSundayMatch | teams/tests.py:102-123 | Skill 1 on Sunday matches nothing. |
| Reminders.InWindow | teams/management/commands/send_reminders.py:12-19 | The reminder window is `[now, now + 24h)`: from now inclusive to 24 hours later exclusive. |
| Reminders.SelectWithStatus | teams/management/commands/send_reminders.py:16-20 | The selection holds exactly the requests with the given status whose match is in `[now, now + 24h)`, with their multiplicities, newest first. |
| Reminders.SelectAsWritten | teams/management/commands/send_reminders.py:16-20 | As written, the selection is the requests with status `'ACCEPTED'` in the window, each once per stored row. None of them has a stored status code. |
| Reminders.Select | teams/management/commands/send_reminders.py:8-20 | Corrected, the selection is exactly the accepted requests (code `'A'`) in the window, each once per stored row, newest first. |
| Reminders.AcceptedLiteralIsNoCode | teams/models.py:77-82 | `'ACCEPTED'` is not one of the status codes. |
| Reminders.LocationSnippet | teams/management/commands/send_reminders.py:30 | The location is cut to its first min(50, len) characters and `...` is always appended. |
| Reminders.SnippetAgainstPreview | teams/management/commands/send_reminders.py:30 | The reminder snippet equals the admin preview on locations over 50 characters. On shorter ones it is the preview plus `...`. |
| Reminders.Remind | teams/management/commands/send_reminders.py:22-35 | An empty selection gives the notice and no reminders. Otherwise there is one reminder per selected request, in order, naming its two teams, time and location snippet, and the count equals the selection size. |
| Reminders.RunAsWritten | teams/management/commands/send_reminders.py:10-35 | The command as written reports the notice exactly when its selection is empty. Otherwise the count is the selection size. |
| Reminders.Run | teams/management/commands/send_reminders.py:10-35 | The corrected command reports the notice exactly when no accepted request is in the window. Otherwise the count is the selection size. |
| Reminders.AsWrittenNeverReminds | teams/management/commands/send_reminders.py:17 | While every stored status is a status code, the command as written selects nothing and only reports the notice. |
| Reminders.AcceptedMatchMissed | teams/management/commands/send_reminders.py:17 | An accepted request one hour ahead is missed as written. The corrected command sends exactly one reminder for it. |
| Reminders.WindowEdges | teams/management/commands/send_reminders.py:12-19 | The window is half-open: a match at `now` is selected, and one exactly 24 hours later or already past is not. |

## Left out

- **ORM machinery.** The model does not include the database, transactions, cascades, `select_related`, `Prefetch` objects or SQL `DISTINCT`. Tables are sequences. `Models.Valid` states the database constraints: unique primary keys, unique team names, the availability `unique_together`, the request check constraint, and foreign keys that name stored rows. A request embeds its two teams; `Valid` asks them to be stored rows, which is what Django loads. Cascading deletes are not modelled, because no modelled view deletes.
- Dashboard.DashboardContext: takes the ordered `user_teams` as an argument. It constrains the argument only by what every database guarantees of `order_by('-last_match_date')` (teams/views.py:127-130). Where teams that never sent a request go depends on how the database orders nulls, and ties are broken as the database chooses. So the model does not fix those positions, nor which team is current among them.
- **Dashboard without a team.** When the user has no team, `get_context_data` falls off its end and returns `None`. The model answers `None` as well and does not model what the template then renders.
- **Status transitions.** No accept, reject or cancel transition exists. `MatchRequestViewSet` is registered in teams/api_urls.py but defined nowhere, so status is data with predicates.
- **Framework views.** `AvailabilityManagementView`'s formset processing (teams/views.py:186-243) is framework form machinery. So are the team create/update views, the register, login, logout, profile and home views, forms, URL routing and the admin list configuration.
- **Sign-in guards.** `LoginRequiredMixin` and `IsAuthenticated` redirect or refuse anonymous users before the modelled code runs. Those views, `MatchRequestDetailView` among them (teams/views.py:60), take a signed-in user id. The access checks that can see an anonymous user take a `User`.
- **Skill type.** The skill level is not a column of the team model. The model carries it as an integer attribute. The tests compare the strings `'1'`..`'4'`, which order as the integers do for one-digit levels only. The tests also pass `skill_level` to `Team.objects.create` (teams/tests.py:11-12 and 54-66), which the team model rejects, so every `setUp` raises and none of the tests runs as written. The `MatchingRules` fixture members state what those tests assert, not a run of them.
- **Module import.** teams/views.py imports `MatchingTeamSerializer` (lines 19-25), which teams/serializers.py does not define, so the module cannot be imported as written. Every view here is modelled as its method body reads.
- **Chat routing.** The registered chat route (`messages`, teams/api_urls.py:40) supplies no `match_request_pk`. Routed that way, every chat listing is empty, and every chat post with accepted content is a 404. The chat views are modelled with the key given, as the nested route commented out at teams/api_urls.py:22 would supply it.
- **Matching API payload.** The shape of the API's payload is not modelled. `MatchingTeamSerializer` is imported from teams/serializers.py but not defined there, and the model returns each team with its day slots.
- **Clock and formatting.** `timezone.now()` is the `now` parameter. `strftime` of the match time and the console styling of the reminder command are left out: a reminder carries the stored datetime.
- **Time precision.** Seconds and microseconds of a `TimeField` are dropped: a time is minutes since midnight.
- **New records.** Primary keys of new rows and `auto_now_add` timestamps are parameters.
- ApiViews.AvailabilityCreate: the serializer's checks of the start and end fields are not modelled, because a `Time` is always well formed in the model.
- ApiViews.ChatCreate: blankness and trimming (`ApiViews.IsSpace`, `ApiViews.Strip`) use space, tab, newline and carriage return only, while Python's `str.strip` removes every Unicode white-space character. The NUL check is modelled; other field validators are not.
- ApiViews.NewMessage: the content is trimmed with the same four white-space characters as `ApiViews.ChatCreate`.
- ApiViews.ChatList: pagination and the single-message `retrieve` route, which shares the same queryset, are not modelled separately.
- Admin.ContentPreview: "unchanged if and only if at most 50 characters" does not hold, so the contract states the exact condition instead. A 53-character content that ends in `...` is returned unchanged too.
- Models.LeastId: `.first()` is taken to order by primary key, because the team model declares no ordering.
- Matchmaking.MatchFinder: listing each team once relies on unique team ids, which the database guarantees.
- **`responder` property.** `MatchRequest.responder` is a plain alias of the receiver and is not modelled.

## Findings

| source | as written | input that shows it | evidently intended | confidence | as-written member | corrected member |
|---|---|---|---|---|---|---|
| teams/management/commands/send_reminders.py:17 | selects `status='ACCEPTED'`, but an accepted request is stored with the code `'A'` | an accepted request whose match starts in one hour: no reminder, only the "no upcoming matches" notice | select `status='A'`, as the help text says | high (not executed) | Reminders.RunAsWritten, shown by Reminders.AcceptedMatchMissed and Reminders.AsWrittenNeverReminds | Reminders.Run |
| teams/views.py:356-362 | `perform_create` looks up the request but never checks that the user manages one of its teams | through the nested route `match-requests/<pk>/` of teams/api_urls.py:22 (commented out; the registered `messages` route gives no key), a signed-in user who manages neither team posts to any request's chat; listing the same chat refuses them | the participant check of `get_queryset` (teams/views.py:350-352) applied before saving | medium (not executed) | ApiViews.ChatCreate, shown by ApiViews.OutsiderCanPost | ApiViews.ChatCreateChecked, with ApiViews.ParticipantPostIsListed |
