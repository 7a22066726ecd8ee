/**
 The delete cascades the schema declares. Deleting a survey deletes its
 options and its responses; deleting an option deletes the responses that
 carry its id; deleting a user deletes that user's surveys, and so on down.
 No route deletes anything, but these are what a delete of each row does.
 */
module Cascade {
  import opened Models

  /** The responses that survive once the surveys `ss` and the options `os`
      are gone, in their original order. */
  function Detach(rs: seq<SurveyResponse>, ss: set<SurveyId>, os: set<OptionId>): (r: seq<SurveyResponse>)
    ensures forall x :: x in r <==> x in rs && x.survey !in ss && x.option !in os
    ensures (forall i, j :: 0 <= i < j < |rs| ==> rs[i].id < rs[j].id) ==>
              (forall i, j :: 0 <= i < j < |r| ==> r[i].id < r[j].id)
  {
    if rs == [] then []
    else
      var t := Detach(rs[1..], ss, os);
      assert forall x :: x in rs <==> x == rs[0] || x in rs[1..];
      if rs[0].survey in ss || rs[0].option in os then t
      else
        assert forall k :: 0 <= k < |t| ==> t[k] in rs[1..];
        [rs[0]] + t
  }

  /** Deleting every survey in `ss`: the surveys themselves, all their
      options, all their responses, and every response that carries the id
      of one of the deleted options, whichever survey that response names. */
  function DeleteSurveys(st: Store, ss: set<SurveyId>): (r: Store)
    requires Valid(st)
    ensures Valid(r)
    ensures r.surveys.Keys == st.surveys.Keys - ss
    ensures forall s :: s in r.surveys ==> r.surveys[s] == st.surveys[s]
    ensures forall o :: o in r.options <==> o in st.options && st.options[o].survey !in ss
    ensures forall o :: o in r.options ==> r.options[o] == st.options[o]
    ensures forall x :: x in r.responses <==>
              && x in st.responses
              && x.survey !in ss
              && !(x.option in st.options && st.options[x.option].survey in ss)
    ensures r.(surveys := st.surveys, options := st.options, responses := st.responses) == st
  {
    var os := set o | o in st.options && st.options[o].survey in ss;
    st.(surveys := st.surveys - ss,
        options := st.options - os,
        responses := Detach(st.responses, ss, os))
  }

  /** `db.session.delete(survey)`: the survey, its options, its responses
      and every response carrying one of its option ids go; every other row
      stays as it was. */
  function DeleteSurvey(st: Store, sid: SurveyId): (r: Store)
    requires Valid(st)
    ensures Valid(r)
    ensures r.surveys.Keys == st.surveys.Keys - {sid}
    ensures forall s :: s in r.surveys ==> r.surveys[s] == st.surveys[s]
    ensures forall o :: o in r.options <==> o in st.options && st.options[o].survey != sid
    ensures forall o :: o in r.options ==> r.options[o] == st.options[o]
    ensures forall i :: 0 <= i < |r.responses| ==> r.responses[i].survey != sid
    ensures forall x :: x in r.responses <==>
              && x in st.responses
              && x.survey != sid
              && !(x.option in st.options && st.options[x.option].survey == sid)
    ensures r.(surveys := st.surveys, options := st.options, responses := st.responses) == st
  {
    DeleteSurveys(st, {sid})
  }

  /** `db.session.delete(option)`: the option and the responses carrying its
      id go; its survey and everything else stay. */
  function DeleteOption(st: Store, oid: OptionId): (r: Store)
    requires Valid(st) && oid in st.options
    ensures Valid(r)
    ensures r.options.Keys == st.options.Keys - {oid}
    ensures forall o :: o in r.options ==> r.options[o] == st.options[o]
    ensures forall x :: x in r.responses <==> x in st.responses && x.option != oid
    ensures r.(options := st.options, responses := st.responses) == st
  {
    st.(options := st.options - {oid}, responses := Detach(st.responses, {}, {oid}))
  }

  /** `db.session.delete(user)`: the user and, through the user's surveys,
      everything those surveys own. */
  function DeleteUser(st: Store, uid: UserId): (r: Store)
    requires Valid(st)
    ensures Valid(r)
    ensures r.users == st.users - {uid}
    ensures forall s :: s in r.surveys <==> s in st.surveys && st.surveys[s].owner != uid
    ensures forall s :: s in r.surveys ==> r.surveys[s] == st.surveys[s]
    ensures forall o :: o in r.options <==>
              o in st.options && st.options[o].survey in st.surveys && st.surveys[st.options[o].survey].owner != uid
    ensures forall o :: o in r.options ==> r.options[o] == st.options[o]
    ensures forall x :: x in r.responses <==>
              && x in st.responses
              && x.survey !in SurveysOf(st, uid)
              && !(x.option in st.options && st.options[x.option].survey in SurveysOf(st, uid))
    ensures r.(users := st.users, surveys := st.surveys, options := st.options, responses := st.responses) == st
  {
    var r := DeleteSurveys(st, SurveysOf(st, uid));
    r.(users := r.users - {uid})
  }
}
