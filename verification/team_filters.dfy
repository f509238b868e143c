/** The `get_day_display` template filter (teams/templatetags/team_filters.py). */
module TeamFilters {
  import opened Wrappers
  import opened Models

  /** `dict(pairs).get(key)`: the value of the last pair whose key is `key`,
      since a later pair overrides an earlier one. */
  function DictGet(pairs: seq<(string, string)>, key: string): (r: Option<string>)
    ensures r.None? <==> forall i :: 0 <= i < |pairs| ==> pairs[i].0 != key
    ensures r.Some? ==> exists i :: 0 <= i < |pairs| && pairs[i] == (key, r.value) && LastWithKey(pairs, key, i)
  {
    if pairs == [] then None
    else
      var rest := DictGet(pairs[1..], key);
      assert forall i :: 0 < i < |pairs| ==> pairs[i] == pairs[1..][i - 1];
      if rest.Some? then
        var i :| 0 <= i < |pairs[1..]| && pairs[1..][i] == (key, rest.value) && LastWithKey(pairs[1..], key, i);
        assert pairs[i + 1] == (key, rest.value) && LastWithKey(pairs, key, i + 1);
        rest
      else if pairs[0].0 == key then
        assert LastWithKey(pairs, key, 0);
        Some(pairs[0].1)
      else
        None
  }

  /** No pair after position `i` has the key `key`. */
  predicate LastWithKey(pairs: seq<(string, string)>, key: string, i: int) {
    forall j :: 0 <= i < j < |pairs| ==> pairs[j].0 != key
  }

  /** The full name of a day code; any other string is returned as it is. */
  function GetDayDisplay(code: string): (r: string)
    ensures !IsDayCode(code) ==> r == code
    ensures IsDayCode(code) ==> exists i :: 0 <= i < |DayChoices| && DayChoices[i] == (code, r)
  {
    DictGet(DayChoices, code).GetOr(code)
  }

  /** Each of the seven codes shows as its own full name. */
  lemma DisplayOfCode(i: int)
    requires 0 <= i < |DayChoices|
    ensures GetDayDisplay(DayChoices[i].0) == DayChoices[i].1
  {
    var code := DayChoices[i].0;
    var r := DictGet(DayChoices, code);
    assert r.Some?;
    var j :| 0 <= j < |DayChoices| && DayChoices[j] == (code, r.value);
    CodeDeterminesEntry(i, j);
  }

  /** Two entries with the same code are the same entry. */
  lemma CodeDeterminesEntry(i: int, j: int)
    requires 0 <= i < |DayChoices| && 0 <= j < |DayChoices|
    ensures DayChoices[i].0 == DayChoices[j].0 ==> i == j
  {
    if i != j {
      var a := DayChoices[i].0;
      var b := DayChoices[j].0;
      assert |a| == 3 && |b| == 3;
      assert [a[0], a[1]] != [b[0], b[1]];
    }
  }

  lemma SevenDayNames()
    ensures GetDayDisplay("MON") == "Monday" && GetDayDisplay("TUE") == "Tuesday"
    ensures GetDayDisplay("WED") == "Wednesday" && GetDayDisplay("THU") == "Thursday"
    ensures GetDayDisplay("FRI") == "Friday" && GetDayDisplay("SAT") == "Saturday"
    ensures GetDayDisplay("SUN") == "Sunday"
  {
    DisplayOfCode(0); DisplayOfCode(1); DisplayOfCode(2); DisplayOfCode(3);
    DisplayOfCode(4); DisplayOfCode(5); DisplayOfCode(6);
  }

  /** A string that is not a day code passes through unchanged. */
  lemma NonCodeUnchanged(s: string)
    requires !IsDayCode(s)
    ensures GetDayDisplay(s) == s
  {
  }

  /** No full day name is itself a day code. */
  lemma NamesAreNotCodes(i: int)
    requires 0 <= i < |DayChoices|
    ensures !IsDayCode(DayChoices[i].1)
  {
  }

  /** Distinct codes show as distinct names. */
  lemma DisplayInjectiveOnCodes(a: string, b: string)
    requires IsDayCode(a) && IsDayCode(b) && a != b
    ensures GetDayDisplay(a) != GetDayDisplay(b)
  {
    var i :| 0 <= i < |DayChoices| && DayChoices[i].0 == a;
    var j :| 0 <= j < |DayChoices| && DayChoices[j].0 == b;
    DisplayOfCode(i);
    DisplayOfCode(j);
    NamesDistinct(i, j);
  }

  lemma NamesDistinct(i: int, j: int)
    requires 0 <= i < |DayChoices| && 0 <= j < |DayChoices| && i != j
    ensures DayChoices[i].1 != DayChoices[j].1
  {
    var n := DayChoices[i].1;
    var m := DayChoices[j].1;
    assert |n| >= 2 && |m| >= 2;
    assert [n[0], n[1]] != [m[0], m[1]];
  }

  /** Applying the filter twice is the same as applying it once. */
  lemma DisplayIdempotent(s: string)
    ensures GetDayDisplay(GetDayDisplay(s)) == GetDayDisplay(s)
  {
    if IsDayCode(s) {
      var i :| 0 <= i < |DayChoices| && DayChoices[i].0 == s;
      DisplayOfCode(i);
      NamesAreNotCodes(i);
      NonCodeUnchanged(DayChoices[i].1);
    } else {
      NonCodeUnchanged(s);
      NonCodeUnchanged(s);
    }
  }
}
