/**
 * The recent-search list of the weather dashboard: a bounded, case-insensitively
 * deduplicated, most-recent-first list of city names kept in durable storage,
 * and the dropdown that shows it.
 *
 * The persisted value is the field `stored` of class `RecentStore`; the pure
 * function `Saved` is the specification of one `SaveRecent` call, and the
 * lemmas below state what the dashboard promises about the list.
 */
module RecentSearches {

  /** Largest number of cities the list keeps. */
  const MaxRecent: nat := 6

  /** Text of the non-selectable first entry of the dropdown. */
  const PlaceholderText: string := "Recent searches"

  // ---------------------------------------------------------------------------
  // Case-insensitive comparison
  // ---------------------------------------------------------------------------

  predicate IsUpper(ch: char) { 'A' <= ch <= 'Z' }

  function LowerChar(ch: char): char {
    if IsUpper(ch) then (ch as int - 'A' as int + 'a' as int) as char else ch
  }

  /** Lower-casing of a city name, restricted to the ASCII letters. */
  function Lower(s: string): (r: string)
    ensures |r| == |s|
  {
    if s == [] then [] else [LowerChar(s[0])] + Lower(s[1..])
  }

  /** A lower-cased name holds no upper-case ASCII letter. */
  lemma {:induction false} LowerHasNoUpper(s: string)
    ensures forall i :: 0 <= i < |Lower(s)| ==> !IsUpper(Lower(s)[i])
  {
    if s != [] {
      LowerHasNoUpper(s[1..]);
      assert Lower(s) == [LowerChar(s[0])] + Lower(s[1..]);
    }
  }

  /** Two names denote the same city when they agree after lower-casing. */
  predicate SameCity(a: string, b: string) {
    Lower(a) == Lower(b)
  }

  lemma {:induction false} LowerIdempotent(s: string)
    ensures Lower(Lower(s)) == Lower(s)
  {
    if s != [] {
      LowerIdempotent(s[1..]);
      assert Lower(s)[1..] == Lower(s[1..]);
    }
  }

  /** A name only matches the empty name when it is empty itself. */
  lemma SameCityAsEmpty(a: string)
    ensures SameCity(a, "") <==> a == ""
  {
  }

  // ---------------------------------------------------------------------------
  // The list update
  // ---------------------------------------------------------------------------

  /** The list with every entry that names `city` (in any letter case) removed. */
  function WithoutCity(list: seq<string>, city: string): (r: seq<string>)
    ensures |r| <= |list|
  {
    if list == [] then []
    else if SameCity(list[0], city) then WithoutCity(list[1..], city)
    else [list[0]] + WithoutCity(list[1..], city)
  }

  /** The list after one save of `city`: unchanged for an empty name, otherwise
      `city` in front of the other entries, cut to `MaxRecent` entries. */
  function Saved(list: seq<string>, city: string): (r: seq<string>)
    ensures city == "" ==> r == list
    ensures city != "" ==> 1 <= |r| <= MaxRecent && r[0] == city
  {
    if city == "" then list
    else
      var arr := [city] + WithoutCity(list, city);
      if |arr| > MaxRecent then arr[..MaxRecent] else arr
  }

  /** The list after saving every city of `cities`, first to last. */
  function SaveAll(list: seq<string>, cities: seq<string>): seq<string> {
    if cities == [] then list
    else Saved(SaveAll(list, cities[..|cities| - 1]), cities[|cities| - 1])
  }

  /** No two entries name the same city. */
  predicate NoCaseDuplicates(list: seq<string>) {
    forall i, j :: 0 <= i < j < |list| ==> !SameCity(list[i], list[j])
  }

  /** The shape every list written by a save has. */
  predicate WellFormed(list: seq<string>) {
    |list| <= MaxRecent && NoCaseDuplicates(list)
  }

  /** `a` is `b` with some entries dropped and the rest in their original order. */
  ghost predicate IsSubsequence(a: seq<string>, b: seq<string>)
    decreases |b|
  {
    if a == [] then true
    else if b == [] then false
    else (a[0] == b[0] && IsSubsequence(a[1..], b[1..])) || IsSubsequence(a, b[1..])
  }

  // ---------------------------------------------------------------------------
  // Properties of WithoutCity
  // ---------------------------------------------------------------------------

  /** An entry survives exactly when it was there and does not name `city`. */
  lemma {:induction false} WithoutCityMembers(list: seq<string>, city: string, x: string)
    ensures x in WithoutCity(list, city) <==> x in list && !SameCity(x, city)
  {
    if list != [] {
      WithoutCityMembers(list[1..], city, x);
      assert list == [list[0]] + list[1..];
    }
  }

  /** The surviving entries keep their relative order. */
  lemma {:induction false} WithoutCityIsSubsequence(list: seq<string>, city: string)
    ensures IsSubsequence(WithoutCity(list, city), list)
  {
    if list != [] {
      WithoutCityIsSubsequence(list[1..], city);
      var w := WithoutCity(list[1..], city);
      if !SameCity(list[0], city) {
        assert ([list[0]] + w)[1..] == w;
      }
    }
  }

  /** No surviving entry names `city`. */
  lemma {:induction false} WithoutCityRemovesAll(list: seq<string>, city: string)
    ensures forall i :: 0 <= i < |WithoutCity(list, city)| ==> !SameCity(WithoutCity(list, city)[i], city)
  {
    if list != [] {
      WithoutCityRemovesAll(list[1..], city);
    }
  }

  /** Removing a city that is not in the list changes nothing. */
  lemma {:induction false} WithoutAbsentCity(list: seq<string>, city: string)
    requires forall i :: 0 <= i < |list| ==> !SameCity(list[i], city)
    ensures WithoutCity(list, city) == list
  {
    if list != [] {
      WithoutAbsentCity(list[1..], city);
      assert list == [list[0]] + list[1..];
    }
  }

  /** Removal distributes over concatenation. */
  lemma {:induction false} WithoutCityAppend(a: seq<string>, b: seq<string>, city: string)
    ensures WithoutCity(a + b, city) == WithoutCity(a, city) + WithoutCity(b, city)
  {
    if a != [] {
      WithoutCityAppend(a[1..], b, city);
      assert (a + b)[1..] == a[1..] + b;
    } else {
      assert a + b == b;
    }
  }

  /** Removal depends on the city only through its lower-cased name. */
  lemma {:induction false} WithoutSameCity(list: seq<string>, c: string, d: string)
    requires SameCity(c, d)
    ensures WithoutCity(list, c) == WithoutCity(list, d)
  {
    if list != [] {
      WithoutSameCity(list[1..], c, d);
    }
  }

  /** Removal keeps a list free of case-insensitive duplicates. */
  lemma {:induction false} WithoutCityNoDuplicates(list: seq<string>, city: string)
    requires NoCaseDuplicates(list)
    ensures NoCaseDuplicates(WithoutCity(list, city))
  {
    if list != [] {
      var tail := list[1..];
      assert NoCaseDuplicates(tail) by {
        forall i, j | 0 <= i < j < |tail| ensures !SameCity(tail[i], tail[j]) {
          assert tail[i] == list[i + 1] && tail[j] == list[j + 1];
        }
      }
      WithoutCityNoDuplicates(tail, city);
      var w := WithoutCity(tail, city);
      if !SameCity(list[0], city) {
        var r := [list[0]] + w;
        forall i, j | 0 <= i < j < |r| ensures !SameCity(r[i], r[j]) {
          if i == 0 {
            assert r[j] == w[j - 1];
            WithoutCityMembers(tail, city, w[j - 1]);
            var k :| 0 <= k < |tail| && tail[k] == w[j - 1];
            assert list[k + 1] == tail[k];
          } else {
            assert r[i] == w[i - 1] && r[j] == w[j - 1];
          }
        }
      }
    }
  }

  /** The first `k` entries survive when none of them names `city`. */
  lemma WithoutCityKeepsPrefix(list: seq<string>, city: string, k: nat)
    requires k <= |list|
    requires forall i :: 0 <= i < k ==> !SameCity(list[i], city)
    ensures |WithoutCity(list, city)| >= k
    ensures forall i :: 0 <= i < k ==> WithoutCity(list, city)[i] == list[i]
  {
    assert list == list[..k] + list[k..];
    WithoutCityAppend(list[..k], list[k..], city);
    WithoutAbsentCity(list[..k], city);
  }

  // ---------------------------------------------------------------------------
  // Properties of Saved
  // ---------------------------------------------------------------------------

  /** An empty name leaves the list as it was. */
  lemma SavedEmptyIsNoOp(list: seq<string>)
    ensures Saved(list, "") == list
  {
  }

  /** After a save the new city is first, no other entry names it, the list holds
      at most `MaxRecent` entries, and the rest are the previous entries without
      the matches of `city`, in their original order, cut to `MaxRecent - 1`. */
  lemma SavedShape(list: seq<string>, city: string)
    requires city != ""
    ensures var r := Saved(list, city);
      && 1 <= |r| <= MaxRecent
      && r[0] == city
      && (forall i :: 1 <= i < |r| ==> !SameCity(r[i], city))
      && var w := WithoutCity(list, city);
         && |r| == 1 + (if |w| < MaxRecent - 1 then |w| else MaxRecent - 1)
         && forall i :: 1 <= i < |r| ==> r[i] == w[i - 1]
  {
    WithoutCityRemovesAll(list, city);
  }

  /** The saved list contains the city and otherwise only earlier entries in
      their earlier order. */
  lemma SavedKeepsOrder(list: seq<string>, city: string)
    requires city != ""
    ensures Saved(list, city)[0] == city
    ensures IsSubsequence(Saved(list, city)[1..], list)
  {
    var w := WithoutCity(list, city);
    WithoutCityIsSubsequence(list, city);
    var r := Saved(list, city);
    if |[city] + w| > MaxRecent {
      assert r[1..] == w[..MaxRecent - 1];
      PrefixIsSubsequence(w, MaxRecent - 1, list);
    } else {
      assert r[1..] == w;
    }
  }

  /** A prefix of a subsequence is again a subsequence. */
  lemma {:induction false} PrefixIsSubsequence(a: seq<string>, k: nat, b: seq<string>)
    requires k <= |a|
    requires IsSubsequence(a, b)
    ensures IsSubsequence(a[..k], b)
    decreases |b|
  {
    if k > 0 && b != [] {
      if a[0] == b[0] && IsSubsequence(a[1..], b[1..]) {
        PrefixIsSubsequence(a[1..], k - 1, b[1..]);
        assert a[..k][1..] == a[1..][..k - 1];
      } else {
        PrefixIsSubsequence(a, k, b[1..]);
      }
    }
  }

  /** Saving a city and then the same city in any letter case gives the list
      saving the second spelling once gives; in particular saving is idempotent. */
  lemma SavedTwice(list: seq<string>, c: string, d: string)
    requires SameCity(c, d)
    ensures Saved(Saved(list, c), d) == Saved(list, d)
  {
    SameCityAsEmpty(c);
    SameCityAsEmpty(d);
    if c != "" {
      var w := WithoutCity(list, c);
      var first := Saved(list, c);
      var rest := first[1..];
      assert first == [c] + rest;
      WithoutCityAppend([c], rest, d);
      assert WithoutCity([c], d) == [];
      SavedShape(list, c);
      forall i | 0 <= i < |rest| ensures !SameCity(rest[i], d) {
        assert rest[i] == first[i + 1];
      }
      WithoutAbsentCity(rest, d);
      WithoutSameCity(list, c, d);
    }
  }

  lemma SavedIdempotent(list: seq<string>, city: string)
    ensures Saved(Saved(list, city), city) == Saved(list, city)
  {
    SavedTwice(list, city, city);
  }

  /** A save keeps a well-formed list well-formed; a non-empty save also bounds
      the length of any list whose entries are distinct. */
  lemma SavedPreservesNoDuplicates(list: seq<string>, city: string)
    requires NoCaseDuplicates(list)
    ensures NoCaseDuplicates(Saved(list, city))
    ensures city != "" ==> WellFormed(Saved(list, city))
  {
    if city != "" {
      WithoutCityNoDuplicates(list, city);
      WithoutCityRemovesAll(list, city);
      var w := WithoutCity(list, city);
      var arr := [city] + w;
      forall i, j | 0 <= i < j < |arr| ensures !SameCity(arr[i], arr[j]) {
        if i == 0 {
          assert arr[j] == w[j - 1];
        } else {
          assert arr[i] == w[i - 1] && arr[j] == w[j - 1];
        }
      }
    }
  }

  lemma SavedPreservesWellFormed(list: seq<string>, city: string)
    requires WellFormed(list)
    ensures WellFormed(Saved(list, city))
  {
    SavedPreservesNoDuplicates(list, city);
  }

  /** In a well-formed list the entry at `k` is the only one naming its city,
      so the filter removes just that entry. */
  lemma WithoutOnlyMatch(list: seq<string>, city: string, k: nat)
    requires NoCaseDuplicates(list)
    requires k < |list| && SameCity(list[k], city)
    ensures WithoutCity(list, city) == list[..k] + list[k + 1..]
  {
    var before, rest, after := list[..k], list[k..], list[k + 1..];
    OnlyOneMatch(list, city, k);
    assert forall i :: 0 <= i < |before| ==> before[i] == list[i];
    assert forall i :: 0 <= i < |after| ==> after[i] == list[k + 1 + i];
    assert list == before + rest;
    assert rest[0] == list[k] && rest[1..] == after;
    calc {
      WithoutCity(list, city);
      { WithoutCityAppend(before, rest, city); }
      WithoutCity(before, city) + WithoutCity(rest, city);
      { WithoutAbsentCity(before, city); }
      before + WithoutCity(rest, city);
      before + WithoutCity(after, city);
      { WithoutAbsentCity(after, city); }
      before + after;
    }
  }

  /** In a list without duplicates, no entry other than one naming `city` does. */
  lemma OnlyOneMatch(list: seq<string>, city: string, k: nat)
    requires NoCaseDuplicates(list)
    requires k < |list| && SameCity(list[k], city)
    ensures forall i :: 0 <= i < |list| && i != k ==> !SameCity(list[i], city)
  {
    forall i | 0 <= i < |list| && i != k ensures !SameCity(list[i], city) {
      if i < k {
        assert !SameCity(list[i], list[k]);
      } else {
        assert !SameCity(list[k], list[i]);
      }
    }
  }

  /** Saving a city that is already in a well-formed list moves that entry to the
      front with the new spelling, and keeps everything else. */
  lemma SavedMovesToFront(list: seq<string>, city: string, k: nat)
    requires WellFormed(list)
    requires city != ""
    requires k < |list| && SameCity(list[k], city)
    ensures Saved(list, city) == [city] + list[..k] + list[k + 1..]
  {
    WithoutOnlyMatch(list, city, k);
    assert |[city] + (list[..k] + list[k + 1..])| <= MaxRecent;
    assert [city] + list[..k] + list[k + 1..] == [city] + (list[..k] + list[k + 1..]);
  }

  /** Saving a city that none of the first `k` entries names shifts those entries
      one place back, behind the city, as far as the bound allows. */
  lemma SavedShiftsFreshPrefix(list: seq<string>, city: string, k: nat)
    requires city != ""
    requires k <= |list|
    requires forall i :: 0 <= i < k ==> !SameCity(list[i], city)
    ensures var r := Saved(list, city);
      var m := if k + 1 < MaxRecent then k + 1 else MaxRecent;
      && m <= |r| <= MaxRecent
      && r[0] == city
      && forall i :: 1 <= i < m ==> r[i] == list[i - 1]
  {
    WithoutCityKeepsPrefix(list, city, k);
    SavedShape(list, city);
  }

  lemma DistinctCitiesDropLast(cities: seq<string>)
    requires cities != []
    requires forall i :: 0 <= i < |cities| ==> cities[i] != ""
    requires forall i, j :: 0 <= i < j < |cities| ==> !SameCity(cities[i], cities[j])
    ensures var earlier := cities[..|cities| - 1];
      && (forall i :: 0 <= i < |earlier| ==> earlier[i] != "")
      && (forall i, j :: 0 <= i < j < |earlier| ==> !SameCity(earlier[i], earlier[j]))
  {
    var earlier := cities[..|cities| - 1];
    forall i, j | 0 <= i < j < |earlier| ensures !SameCity(earlier[i], earlier[j]) {
      assert earlier[i] == cities[i] && earlier[j] == cities[j];
    }
  }

  /** One step of `SaveAllMostRecentFirst`: if the list begins with the earlier
      cities, newest first, saving the next distinct city keeps that shape. */
  lemma SaveAllStep(x: seq<string>, cities: seq<string>)
    requires cities != [] && cities[|cities| - 1] != ""
    requires forall i :: 0 <= i < |cities| - 1 ==> !SameCity(cities[i], cities[|cities| - 1])
    requires var earlier := cities[..|cities| - 1];
      var k := if |earlier| < MaxRecent then |earlier| else MaxRecent;
      && |x| >= k
      && forall i :: 0 <= i < k ==> x[i] == earlier[|earlier| - 1 - i]
    ensures var r := Saved(x, cities[|cities| - 1]);
      var m := if |cities| < MaxRecent then |cities| else MaxRecent;
      && m <= |r| <= MaxRecent
      && forall i :: 0 <= i < m ==> r[i] == cities[|cities| - 1 - i]
  {
    var n := |cities|;
    var k := if n - 1 < MaxRecent then n - 1 else MaxRecent;
    EarlierCitiesAreFresh(x, cities);
    SavedShiftsFreshPrefix(x, cities[n - 1], k);
    ShiftedNewestFirst(Saved(x, cities[n - 1]), x, cities);
  }

  /** A list that starts with the earlier cities, newest first, has no entry in
      that leading run naming the next, distinct city. */
  lemma EarlierCitiesAreFresh(x: seq<string>, cities: seq<string>)
    requires cities != []
    requires forall i :: 0 <= i < |cities| - 1 ==> !SameCity(cities[i], cities[|cities| - 1])
    requires var earlier := cities[..|cities| - 1];
      var k := if |earlier| < MaxRecent then |earlier| else MaxRecent;
      && |x| >= k
      && forall i :: 0 <= i < k ==> x[i] == earlier[|earlier| - 1 - i]
    ensures var n := |cities|;
      var k := if n - 1 < MaxRecent then n - 1 else MaxRecent;
      forall i :: 0 <= i < k ==> !SameCity(x[i], cities[n - 1])
  {
    var n := |cities|;
    var k := if n - 1 < MaxRecent then n - 1 else MaxRecent;
    forall i | 0 <= i < k ensures !SameCity(x[i], cities[n - 1]) {
      assert x[i] == cities[n - 2 - i];
    }
  }

  /** Index bookkeeping of `SaveAllStep`: a list that starts with the newest city
      followed by the earlier cities newest first starts with all of them newest
      first. */
  lemma ShiftedNewestFirst(r: seq<string>, x: seq<string>, cities: seq<string>)
    requires cities != []
    requires var earlier := cities[..|cities| - 1];
      var k := if |earlier| < MaxRecent then |earlier| else MaxRecent;
      && |x| >= k
      && (forall i :: 0 <= i < k ==> x[i] == earlier[|earlier| - 1 - i])
      && var m := if k + 1 < MaxRecent then k + 1 else MaxRecent;
         && m <= |r| <= MaxRecent
         && r[0] == cities[|cities| - 1]
         && forall i :: 1 <= i < m ==> r[i] == x[i - 1]
    ensures var m := if |cities| < MaxRecent then |cities| else MaxRecent;
      && m <= |r| <= MaxRecent
      && forall i :: 0 <= i < m ==> r[i] == cities[|cities| - 1 - i]
  {
    var n := |cities|;
    var earlier := cities[..n - 1];
    var m := if n < MaxRecent then n else MaxRecent;
    forall i | 1 <= i < m ensures r[i] == cities[n - 1 - i] {
      assert r[i] == x[i - 1];
      assert x[i - 1] == earlier[|earlier| - 1 - (i - 1)];
    }
  }

  /** Saving distinct non-empty cities one after another leaves the most recent
      `MaxRecent` of them at the front, most recent first. */
  lemma {:induction false} SaveAllMostRecentFirst(list: seq<string>, cities: seq<string>)
    requires forall i :: 0 <= i < |cities| ==> cities[i] != ""
    requires forall i, j :: 0 <= i < j < |cities| ==> !SameCity(cities[i], cities[j])
    ensures var r := SaveAll(list, cities);
      var k := if |cities| < MaxRecent then |cities| else MaxRecent;
      && |r| >= k
      && (cities != [] ==> |r| <= MaxRecent)
      && forall i :: 0 <= i < k ==> r[i] == cities[|cities| - 1 - i]
  {
    if cities != [] {
      var earlier := cities[..|cities| - 1];
      DistinctCitiesDropLast(cities);
      SaveAllMostRecentFirst(list, earlier);
      SaveAllStep(SaveAll(list, earlier), cities);
    }
  }

  /** Saving more than `MaxRecent` distinct cities keeps exactly the last
      `MaxRecent`, most recent first. */
  lemma SaveAllKeepsLastSix(list: seq<string>, cities: seq<string>)
    requires |cities| >= MaxRecent
    requires forall i :: 0 <= i < |cities| ==> cities[i] != ""
    requires forall i, j :: 0 <= i < j < |cities| ==> !SameCity(cities[i], cities[j])
    ensures |SaveAll(list, cities)| == MaxRecent
    ensures forall i :: 0 <= i < MaxRecent ==> SaveAll(list, cities)[i] == cities[|cities| - 1 - i]
  {
    SaveAllMostRecentFirst(list, cities);
  }

  // ---------------------------------------------------------------------------
  // The stored list and its dropdown
  // ---------------------------------------------------------------------------

  /** One entry of the dropdown: the value it selects and the text it shows. */
  datatype Choice = Choice(value: string, text: string)

  /** The persisted list of recent cities and the dropdown that displays it. */
  class RecentStore {
    var stored: seq<string>
    var dropdownHidden: bool
    var dropdownOptions: seq<Choice>

    constructor (persisted: seq<string>)
      ensures stored == persisted
      ensures dropdownHidden && dropdownOptions == []
    {
      stored := persisted;
      dropdownHidden := true;
      dropdownOptions := [];
    }

    /** Records a searched city: drops its earlier spellings, puts it in front,
        truncates, persists and refreshes the dropdown; an empty name does nothing. */
    method SaveRecent(city: string)
      modifies this
      ensures stored == Saved(old(stored), city)
      ensures city == "" ==> unchanged(this)
      ensures city != "" ==> DropdownShows(stored)
    {
      if city == "" {
        return;
      }
      var arr := WithoutCity(stored, city);
      arr := [city] + arr;
      if |arr| > MaxRecent {
        arr := arr[..MaxRecent];
      }
      stored := arr;
      RenderRecent();
    }

    /** The dropdown is visible and lists the placeholder followed by every city
        of `list`, in order. */
    ghost predicate DropdownShows(list: seq<string>)
      reads this
    {
      && !dropdownHidden
      && |dropdownOptions| == |list| + 1
      && dropdownOptions[0] == Choice("", PlaceholderText)
      && forall i :: 0 <= i < |list| ==> dropdownOptions[i + 1] == Choice(list[i], list[i])
    }

    /** Rebuilds the dropdown from the stored list; an empty list only hides it. */
    method RenderRecent()
      modifies this
      ensures stored == old(stored)
      ensures stored == [] ==> dropdownHidden && dropdownOptions == old(dropdownOptions)
      ensures stored != [] ==> DropdownShows(stored)
    {
      if |stored| == 0 {
        dropdownHidden := true;
        return;
      }
      dropdownOptions := [];
      dropdownOptions := dropdownOptions + [Choice("", PlaceholderText)];
      var i := 0;
      while i < |stored|
        invariant 0 <= i <= |stored|
        invariant stored == old(stored)
        invariant |dropdownOptions| == i + 1
        invariant dropdownOptions[0] == Choice("", PlaceholderText)
        invariant forall j :: 0 <= j < i ==> dropdownOptions[j + 1] == Choice(stored[j], stored[j])
      {
        dropdownOptions := dropdownOptions + [Choice(stored[i], stored[i])];
        i := i + 1;
      }
      dropdownHidden := false;
    }
  }
}
