/**
 The read queries the routes issue against the store: a user by email, a
 survey's options in display order, and a user's surveys newest first.
 */
module Queries {
  import opened Outcomes
  import opened Models

  /** `User.query.filter_by(email=email).first()` over the ids below `hi`:
      the lowest id whose email matches. */
  function FirstWithEmail(users: map<UserId, User>, email: string, hi: nat): (r: Option<UserId>)
    ensures r.Some? ==> r.value in users && users[r.value].email == email && r.value < hi
    ensures r.Some? ==> forall u :: u in users && u < r.value ==> users[u].email != email
    ensures r.None? ==> forall u :: u in users && u < hi ==> users[u].email != email
  {
    if hi == 0 then None
    else
      match FirstWithEmail(users, email, hi - 1)
      case Some(u) => Some(u)
      case None => if hi - 1 in users && users[hi - 1].email == email then Some(hi - 1) else None
  }

  /** The user registered under `email`, if any. Because emails are unique,
      the user found is the only one with that email. */
  function UserByEmail(st: Store, email: string): (r: Option<UserId>)
    requires Valid(st)
    ensures r.Some? <==> exists u :: u in st.users && st.users[u].email == email
    ensures r.Some? ==> r.value in st.users && st.users[r.value].email == email
    ensures r.Some? ==> forall u :: u in st.users && st.users[u].email == email ==> u == r.value
  {
    FirstWithEmail(st.users, email, st.nextUser)
  }

  /** Display order of options: by `option_order`, and by id between equal
      positions (the query itself leaves such ties unordered). */
  predicate Before(options: map<OptionId, SurveyOption>, a: OptionId, b: OptionId)
    requires a in options && b in options
  {
    options[a].order < options[b].order || (options[a].order == options[b].order && a < b)
  }

  /** Every id names an option, and the ids stand strictly in display order. */
  predicate InOrder(options: map<OptionId, SurveyOption>, s: seq<OptionId>) {
    && (forall i :: 0 <= i < |s| ==> s[i] in options)
    && (forall i, j :: 0 <= i < j < |s| ==> Before(options, s[i], s[j]))
  }

  /** Puts `x` into its display position in the ordered list `s`. */
  function Insert(options: map<OptionId, SurveyOption>, x: OptionId, s: seq<OptionId>): (r: seq<OptionId>)
    requires x in options && x !in s
    requires InOrder(options, s)
    ensures InOrder(options, r)
    ensures multiset(r) == multiset(s) + multiset{x}
  {
    if s == [] then [x]
    else if Before(options, x, s[0]) then [x] + s
    else
      var t := Insert(options, x, s[1..]);
      assert s == [s[0]] + s[1..];
      HeadPrecedes(options, s[0], s[1..], x, t);
      [s[0]] + t
  }

  /** A head that precedes every element of `s` and that `x` does not
      precede also precedes every element of `s` with `x` put in. */
  lemma HeadPrecedes(options: map<OptionId, SurveyOption>, h: OptionId, s: seq<OptionId>,
                     x: OptionId, t: seq<OptionId>)
    requires h in options && x in options && h != x && !Before(options, x, h)
    requires forall j :: 0 <= j < |s| ==> s[j] in options && Before(options, h, s[j])
    requires multiset(t) == multiset(s) + multiset{x}
    ensures forall k :: 0 <= k < |t| ==> t[k] in options && Before(options, h, t[k])
  {
    forall k | 0 <= k < |t|
      ensures t[k] in options && Before(options, h, t[k])
    {
      assert t[k] in multiset(t);
      if t[k] != x {
        assert t[k] in multiset(s);
        var j :| 0 <= j < |s| && s[j] == t[k];
      }
    }
  }

  /** `order_by(SurveyOption.option_order)`: a permutation of `s` in display order. */
  function Sort(options: map<OptionId, SurveyOption>, s: seq<OptionId>): (r: seq<OptionId>)
    requires forall i :: 0 <= i < |s| ==> s[i] in options
    requires forall i, j :: 0 <= i < j < |s| ==> s[i] != s[j]
    ensures InOrder(options, r)
    ensures multiset(r) == multiset(s)
  {
    if s == [] then []
    else
      var t := Sort(options, s[1..]);
      assert s == [s[0]] + s[1..];
      assert s[0] !in multiset(t);
      Insert(options, s[0], t)
  }

  /** The ids below `hi` of the options of survey `sid`, ascending. */
  function ScanOptions(options: map<OptionId, SurveyOption>, sid: SurveyId, hi: nat): seq<OptionId> {
    if hi == 0 then []
    else
      ScanOptions(options, sid, hi - 1)
        + (if hi - 1 in options && options[hi - 1].survey == sid then [hi - 1] else [])
  }

  /** The scan finds exactly the options of `sid` below `hi`, ascending. */
  lemma {:induction false} ScanOptionsFinds(options: map<OptionId, SurveyOption>, sid: SurveyId, hi: nat)
    ensures forall i :: 0 <= i < |ScanOptions(options, sid, hi)| ==>
              var o := ScanOptions(options, sid, hi)[i]; o in options && options[o].survey == sid && o < hi
    ensures forall o :: o in options && options[o].survey == sid && o < hi ==> o in ScanOptions(options, sid, hi)
    ensures forall i, j :: 0 <= i < j < |ScanOptions(options, sid, hi)| ==>
              ScanOptions(options, sid, hi)[i] < ScanOptions(options, sid, hi)[j]
  {
    if hi > 0 {
      ScanOptionsFinds(options, sid, hi - 1);
      var prev := ScanOptions(options, sid, hi - 1);
      var r := ScanOptions(options, sid, hi);
      forall o | o in options && options[o].survey == sid && o < hi
        ensures o in r
      {
        if o < hi - 1 {
          assert o in prev;
        } else {
          assert r[|r| - 1] == o;
        }
      }
    }
  }

  /** `SurveyOption.query.filter_by(survey_id=sid).order_by(option_order)`:
      exactly the options of `sid`, each once, in display order. */
  function OptionsOf(st: Store, sid: SurveyId): (r: seq<OptionId>)
    requires Valid(st)
    ensures InOrder(st.options, r)
    ensures forall o :: o in r <==> o in st.options && st.options[o].survey == sid
  {
    var s := ScanOptions(st.options, sid, st.nextOption);
    ScanOptionsFinds(st.options, sid, st.nextOption);
    var r := Sort(st.options, s);
    assert forall o :: o in r <==> o in multiset(r);
    assert forall o :: o in s <==> o in multiset(s);
    r
  }

  /** When the scan already yields the options in display order, the
      listing is the scan itself. */
  lemma OptionsOfScanned(st: Store, sid: SurveyId, ids: seq<OptionId>)
    requires Valid(st)
    requires ScanOptions(st.options, sid, st.nextOption) == ids
    requires InOrder(st.options, ids)
    ensures OptionsOf(st, sid) == ids
  {
    SortInOrder(st.options, ids);
  }

  /** The ids below `hi` of the surveys owned by `owner`, highest first. */
  function ScanOwned(surveys: map<SurveyId, Survey>, owner: UserId, hi: nat): seq<SurveyId> {
    if hi == 0 then []
    else
      (if hi - 1 in surveys && surveys[hi - 1].owner == owner then [hi - 1] else [])
        + ScanOwned(surveys, owner, hi - 1)
  }

  /** The scan finds exactly the surveys of `owner` below `hi`, descending. */
  lemma {:induction false} ScanOwnedFinds(surveys: map<SurveyId, Survey>, owner: UserId, hi: nat)
    ensures forall i :: 0 <= i < |ScanOwned(surveys, owner, hi)| ==>
              var s := ScanOwned(surveys, owner, hi)[i]; s in surveys && surveys[s].owner == owner && s < hi
    ensures forall s :: s in surveys && surveys[s].owner == owner && s < hi ==> s in ScanOwned(surveys, owner, hi)
    ensures forall i, j :: 0 <= i < j < |ScanOwned(surveys, owner, hi)| ==>
              ScanOwned(surveys, owner, hi)[i] > ScanOwned(surveys, owner, hi)[j]
  {
    if hi > 0 {
      ScanOwnedFinds(surveys, owner, hi - 1);
      var prev := ScanOwned(surveys, owner, hi - 1);
      var r := ScanOwned(surveys, owner, hi);
      forall s | s in surveys && surveys[s].owner == owner && s < hi
        ensures s in r
      {
        if s < hi - 1 {
          assert s in prev;
        } else {
          assert r[0] == s;
        }
      }
    }
  }

  /** `Survey.query.filter_by(user_id=owner).order_by(created_at.desc())`:
      exactly the surveys of `owner`, newest first. Ids are handed out in
      creation order, so newest first is highest id first. */
  function OwnedSurveys(st: Store, owner: UserId): (r: seq<SurveyId>)
    requires Valid(st)
    ensures forall s :: s in r <==> s in st.surveys && st.surveys[s].owner == owner
    ensures forall i, j :: 0 <= i < j < |r| ==> r[i] > r[j]
  {
    ScanOwnedFinds(st.surveys, owner, st.nextSurvey);
    ScanOwned(st.surveys, owner, st.nextSurvey)
  }

  /** Sorting leaves a list already in display order as it is. */
  lemma {:induction false} SortInOrder(options: map<OptionId, SurveyOption>, s: seq<OptionId>)
    requires InOrder(options, s)
    ensures forall i, j :: 0 <= i < j < |s| ==> s[i] != s[j]
    ensures Sort(options, s) == s
  {
    if s != [] {
      assert InOrder(options, s[1..]);
      SortInOrder(options, s[1..]);
      assert s == [s[0]] + s[1..];
    }
  }
}
