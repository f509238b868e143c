/** The skill-based matching rule that teams/tests.py states and the views do
    not implement: a team matches a search when its skill is within one of
    the target skill, clamped to the scale 1..4, it has a slot on the target
    day, and the searcher does not manage it. */
module MatchingRules {
  import opened Seqs
  import opened Models
  import Matchmaking

  /** An inclusive range of skill levels, as `skill_level__range` takes it. */
  datatype Window = Window(lo: int, hi: int) {
    predicate Contains(k: int) {
      lo <= k <= hi
    }
  }

  const MinSkill: int := 1
  const MaxSkill: int := 4

  /** Whether skill `k` is on the scale and at most one away from `target`. */
  predicate NearSkill(target: int, k: int) {
    MinSkill <= k <= MaxSkill && target - 1 <= k <= target + 1
  }

  /** `max(1, target - 1)` and `min(4, target + 1)`: the window holds exactly
      the skills on the scale at most one away from the target, and it is
      empty only for a target more than one step off the scale. */
  function SkillWindow(target: int): (w: Window)
    ensures forall k :: w.Contains(k) <==> NearSkill(target, k)
    ensures w.lo <= w.hi <==> 0 <= target <= 5
    ensures MinSkill <= target <= MaxSkill ==> w.Contains(target)
  {
    Window(if target - 1 > MinSkill then target - 1 else MinSkill,
           if target + 1 < MaxSkill then target + 1 else MaxSkill)
  }

  /** The two windows the tests compute: 2..4 for skill 3 and 1..2 for skill 1. */
  lemma TestWindows()
    ensures SkillWindow(3) == Window(2, 4)
    ensures SkillWindow(1) == Window(1, 2)
  {
  }

  /** `Team.objects.filter(skill_level__range=w).exclude(pk=excluded)`. */
  function SkillRange(db: Db, w: Window, excluded: int): (r: seq<Team>)
    ensures forall t :: t in r <==> t in db.teams && w.Contains(t.skill) && t.id != excluded
    ensures UniqueTeamIds(db.teams) ==> DistinctBy(r, TeamId)
  {
    var p := (t: Team) => w.Contains(t.skill) && t.id != excluded;
    assert UniqueTeamIds(db.teams) ==> DistinctBy(Filter(db.teams, p), TeamId) by {
      if UniqueTeamIds(db.teams) {
        FilterKeepsDistinct(db.teams, p, TeamId);
      }
    }
    Filter(db.teams, p)
  }

  /** The ids of the teams that have a slot on `day` among those with an id in `ids`. */
  function AvailableIds(db: Db, day: string, ids: set<int>): (r: set<int>)
    ensures forall id :: id in r <==> id in ids && exists a :: a in db.slots && a.day == day && a.teamId == id
  {
    set a | a in db.slots && a.day == day && a.teamId in ids :: a.teamId
  }

  /** Whether `t` is a stored team that the rule matches. */
  predicate IsMatch(db: Db, target: int, day: string, searcher: UserId, t: Team) {
    t in db.teams && NearSkill(target, t.skill) && t.manager != searcher && Matchmaking.AvailableOn(db, t, day)
  }

  /** The combined rule of the matching test: teams in the skill window of
      `target`, not managed by `searcher`, then the ids of those with a slot
      on `day`, then the stored teams with one of those ids. */
  function SkillMatches(db: Db, target: int, day: string, searcher: UserId): (r: seq<Team>)
    ensures forall t :: t in r ==> t in db.teams
    ensures UniqueTeamIds(db.teams) ==> forall t :: t in r <==> IsMatch(db, target, day, searcher, t)
    ensures UniqueTeamIds(db.teams) ==> DistinctBy(r, TeamId)
  {
    var w := SkillWindow(target);
    var eligible := Filter(db.teams, (t: Team) => w.Contains(t.skill) && t.manager != searcher);
    var ids := AvailableIds(db, day, TeamIds(eligible));
    var p := (t: Team) => t.id in ids;
    assert UniqueTeamIds(db.teams) ==> forall t :: t in db.teams ==> (p(t) <==> IsMatch(db, target, day, searcher, t)) by {
      if UniqueTeamIds(db.teams) {
        forall t | t in db.teams ensures p(t) <==> IsMatch(db, target, day, searcher, t) {
          if p(t) {
            var u :| u in eligible && u.id == t.id;
            SameIdSameTeam(db.teams, u, t);
          }
        }
      }
    }
    assert UniqueTeamIds(db.teams) ==> DistinctBy(Filter(db.teams, p), TeamId) by {
      if UniqueTeamIds(db.teams) {
        FilterKeepsDistinct(db.teams, p, TeamId);
      }
    }
    Filter(db.teams, p)
  }

  /** Teams with distinct keys are as many as their keys. */
  lemma {:induction false} DistinctCount(r: seq<Team>)
    requires DistinctBy(r, TeamId)
    ensures |TeamIds(r)| == |r|
  {
    if r == [] {
      assert TeamIds(r) == {};
    } else {
      var rest := r[1..];
      assert DistinctBy(rest, TeamId) by {
        forall i, j | 0 <= i < j < |rest| ensures TeamId(rest[i]) != TeamId(rest[j]) {
          assert rest[i] == r[i + 1] && rest[j] == r[j + 1];
        }
      }
      DistinctCount(rest);
      assert r[0].id !in TeamIds(rest) by {
        forall t | t in rest ensures t.id != r[0].id {
          var k :| 0 <= k < |rest| && rest[k] == t;
          assert TeamId(r[0]) != TeamId(r[k + 1]);
        }
      }
      TeamIdsCons(r);
    }
  }

  lemma TeamIdsCons(r: seq<Team>)
    requires r != []
    ensures TeamIds(r) == {r[0].id} + TeamIds(r[1..])
  {
    assert r == [r[0]] + r[1..];
    forall id ensures id in TeamIds(r) <==> id in {r[0].id} + TeamIds(r[1..]) {
      if id in TeamIds(r) {
        var t :| t in r && t.id == id;
        assert t == r[0] || t in r[1..];
      }
      if id in TeamIds(r[1..]) {
        var t :| t in r[1..] && t.id == id;
        assert t in r;
      }
    }
  }

  // ---------------------------------------------------------------------------
  // The fixture of the matching tests

  const X := Team(1, "Team X", 1, "", 3)
  const A := Team(2, "Team A", 2, "", 3)
  const B := Team(3, "Team B", 3, "", 2)
  const C := Team(4, "Team C", 3, "", 4)

  const SlotX := Availability(1, 1, "MON", 19 * 60, 21 * 60)
  const SlotA := Availability(2, 2, "MON", 18 * 60, 22 * 60)
  const SlotB := Availability(3, 3, "TUE", 18 * 60, 22 * 60)
  const SlotC := Availability(4, 4, "MON", 18 * 60, 22 * 60)

  /** Four teams of managers 1, 2, 3 and 3, with one slot each: X, A and C on
      Monday, B on Tuesday. */
  function Fixture(): Db {
    Db([X, A, B, C], [SlotX, SlotA, SlotB, SlotC], [], [])
  }

  lemma FixtureUnique()
    ensures UniqueTeamIds(Fixture().teams)
  {
    var ts := Fixture().teams;
    forall i, j | 0 <= i < j < |ts| ensures TeamId(ts[i]) != TeamId(ts[j]) {
      assert ts[i].id == i + 1 && ts[j].id == j + 1;
    }
  }

  /** The days on which each fixture team has a slot. */
  lemma FixtureDays(t: Team, day: string)
    requires t in Fixture().teams
    ensures Matchmaking.AvailableOn(Fixture(), t, day) <==> (if t == B then day == "TUE" else day == "MON")
  {
    var db := Fixture();
    assert forall a :: a in db.slots <==> a == SlotX || a == SlotA || a == SlotB || a == SlotC;
    if t == X { assert SlotX in db.slots; }
    if t == A { assert SlotA in db.slots; }
    if t == B { assert SlotB in db.slots; }
    if t == C { assert SlotC in db.slots; }
  }

  lemma FixtureTeams()
    ensures forall t :: t in Fixture().teams <==> t == X || t == A || t == B || t == C
  {
  }

  /** A sequence of teams with distinct keys holding exactly A, B and C has three elements. */
  lemma CountABC(r: seq<Team>)
    requires forall t :: t in r <==> t == A || t == B || t == C
    requires DistinctBy(r, TeamId)
    ensures |r| == 3
  {
    forall id ensures id in TeamIds(r) <==> id in {2, 3, 4} {
      if id in TeamIds(r) {
        var t :| t in r && t.id == id;
      }
      if id == 2 { assert A in r; }
      if id == 3 { assert B in r; }
      if id == 4 { assert C in r; }
    }
    assert TeamIds(r) == {2, 3, 4};
    DistinctCount(r);
  }

  /** A sequence of teams with distinct keys holding exactly A and C has two elements. */
  lemma CountAC(r: seq<Team>)
    requires forall t :: t in r <==> t == A || t == C
    requires DistinctBy(r, TeamId)
    ensures |r| == 2
  {
    forall id ensures id in TeamIds(r) <==> id in {2, 4} {
      if id in TeamIds(r) {
        var t :| t in r && t.id == id;
      }
      if id == 2 { assert A in r; }
      if id == 4 { assert C in r; }
    }
    assert TeamIds(r) == {2, 4};
    DistinctCount(r);
  }

  /** Skills 2 to 4, leaving out Team X, find the three other teams. */
  lemma FixtureSkillRange()
    ensures var r := SkillRange(Fixture(), Window(2, 4), X.id);
      A in r && B in r && C in r && X !in r && |r| == 3
  {
    FixtureUnique();
    FixtureTeams();
    var r := SkillRange(Fixture(), Window(2, 4), X.id);
    CountABC(r);
  }

  /** Skill 3 on Monday for manager 1: Teams A and C match; Team B, free only
      on Tuesday, and Team X, the searcher's own, do not. */
  lemma FixtureMondayMatches()
    ensures var r := SkillMatches(Fixture(), 3, "MON", 1);
      A in r && C in r && B !in r && X !in r && |r| == 2
  {
    var db := Fixture();
    FixtureUnique();
    FixtureTeams();
    var r := SkillMatches(db, 3, "MON", 1);
    forall t ensures t in r <==> t == A || t == C {
      if t in r || t == A || t == C {
        FixtureDays(t, "MON");
      }
    }
    CountAC(r);
  }

  /** Skill 1 on Sunday: only Team B is in the window 1..2 and it has no
      Sunday slot, so nothing matches. */
  lemma FixtureNoSundayMatch()
    ensures SkillMatches(Fixture(), 1, "SUN", 1) == []
  {
    var db := Fixture();
    FixtureUnique();
    var r := SkillMatches(db, 1, "SUN", 1);
    forall t | t in r ensures false {
      assert IsMatch(db, 1, "SUN", 1, t);
      FixtureDays(t, "SUN");
    }
    assert forall t :: t !in r;
  }
}
