/**
 The survey routes: the dashboard, survey creation, the owner's toggle of
 the active flag, the public response page (GET shows the ballot, POST
 records a vote) and the owner's results page. Each route is one atomic
 transition of the store; a refused request leaves the store as it was.
 */
module Surveys {
  import opened Outcomes
  import opened Text
  import opened Models
  import opened Queries
  import opened Tally

  /** The caller is signed in and owns survey `sid`: the filter
      `filter_by(id=sid, user_id=current_user.id)` finds a row. */
  predicate OwnedBy(st: Store, caller: Option<UserId>, sid: SurveyId) {
    Authenticated(st, caller) && sid in st.surveys && st.surveys[sid].owner == caller.value
  }

  /** The survey exists and accepts votes: `filter_by(id=sid, is_active=True)` finds a row. */
  predicate Open(st: Store, sid: SurveyId) {
    sid in st.surveys && st.surveys[sid].isActive
  }

  /** GET /dashboard: the caller's surveys, newest first. */
  function Dashboard(st: Store, caller: Option<UserId>): (r: Result<seq<SurveyId>>)
    requires Valid(st)
    ensures r.Err? <==> !Authenticated(st, caller)
    ensures r.Err? ==> r.error == LoginRequired
    ensures r.Ok? ==> forall s :: s in r.value <==> s in SurveysOf(st, caller.value)
    ensures r.Ok? ==> forall i, j :: 0 <= i < j < |r.value| ==> r.value[i] > r.value[j]
  {
    if !Authenticated(st, caller) then Err(LoginRequired)
    else Ok(OwnedSurveys(st, caller.value))
  }

  /** The names of the five option slots of the creation form, in slot order. */
  const OptionFields: seq<string> := ["option_1", "option_2", "option_3", "option_4", "option_5"]

  /** `[request.form.get(f"option_{i}", "").strip() for i in range(1, 6)]`:
      the stripped values of the five option slots, in slot order; no other
      field is an option. */
  function OptionSlots(form: Form): seq<string> {
    seq(5, i requires 0 <= i < 5 => Trim(Field(form, OptionFields[i])))
  }

  /** `[opt for opt in ts if opt]`: the non-empty entries, in order. */
  function NonBlank(ts: seq<string>): (r: seq<string>)
    ensures |r| <= |ts|
    ensures forall i :: 0 <= i < |r| ==> r[i] != []
  {
    if ts == [] then []
    else (if ts[0] == [] then [] else [ts[0]]) + NonBlank(ts[1..])
  }

  /** The option texts a creation form yields, in slot order. */
  function OptionTexts(form: Form): (r: seq<string>)
    ensures |r| <= 5
  {
    NonBlank(OptionSlots(form))
  }

  /** The positions from `i` on of the non-empty entries of `ts`, ascending. */
  function NonBlankFrom(ts: seq<string>, i: nat): (ix: seq<nat>)
    requires i <= |ts|
    ensures forall k :: 0 <= k < |ix| ==> i <= ix[k] < |ts| && ts[ix[k]] != []
    ensures forall j :: i <= j < |ts| && ts[j] != [] ==> j in ix
    ensures forall k, l :: 0 <= k < l < |ix| ==> ix[k] < ix[l]
    decreases |ts| - i
  {
    if i == |ts| then []
    else (if ts[i] == [] then [] else [i]) + NonBlankFrom(ts, i + 1)
  }

  /** Dropping the empty entries of `ts` from `i` on keeps exactly the
      entries at the positions of the non-empty ones, in order. */
  lemma {:induction false} NonBlankSelects(ts: seq<string>, i: nat)
    requires i <= |ts|
    ensures |NonBlank(ts[i..])| == |NonBlankFrom(ts, i)|
    ensures forall k :: 0 <= k < |NonBlankFrom(ts, i)| ==>
              NonBlank(ts[i..])[k] == ts[NonBlankFrom(ts, i)[k]]
    decreases |ts| - i
  {
    if i < |ts| {
      NonBlankSelects(ts, i + 1);
      var rest := NonBlank(ts[i + 1..]);
      var ix := NonBlankFrom(ts, i + 1);
      assert ts[i..][1..] == ts[i + 1..];
      assert ts[i..][0] == ts[i];
      if ts[i] == [] {
        assert NonBlank(ts[i..]) == rest;
        assert NonBlankFrom(ts, i) == ix;
      } else {
        assert NonBlank(ts[i..]) == [ts[i]] + rest;
        assert NonBlankFrom(ts, i) == [i] + ix;
        forall k | 0 <= k < |ix| + 1
          ensures NonBlank(ts[i..])[k] == ts[NonBlankFrom(ts, i)[k]]
        {
          if k > 0 {
            assert NonBlank(ts[i..])[k] == rest[k - 1];
            assert NonBlankFrom(ts, i)[k] == ix[k - 1];
          }
        }
      }
    }
  }

  /** The option texts are the stripped values of exactly the non-blank
      slots among `option_1` .. `option_5`, in slot order. */
  lemma OptionTextsFromSlots(form: Form)
    ensures |OptionTexts(form)| == |NonBlankFrom(OptionSlots(form), 0)|
    ensures forall k :: 0 <= k < |NonBlankFrom(OptionSlots(form), 0)| ==>
              var slot := NonBlankFrom(OptionSlots(form), 0)[k];
              slot < 5 && OptionTexts(form)[k] == Trim(Field(form, OptionFields[slot]))
  {
    NonBlankSelects(OptionSlots(form), 0);
    assert OptionSlots(form)[0..] == OptionSlots(form);
  }

  /** The options `texts` of survey `sid` stand under the ids `base ..`,
      the `k`-th at position `k + 1`. */
  predicate Numbered(options: map<OptionId, SurveyOption>, sid: SurveyId, base: nat, texts: seq<string>) {
    forall k :: 0 <= k < |texts| ==>
      base + k in options && options[base + k] == SurveyOption(sid, texts[k], k + 1)
  }

  /** The store `st'` is `st` with survey `sid` added for `owner`, active,
      and with one option per text, `texts[k]` at position `k + 1` under
      option id `st.nextOption + k`; nothing else differs. */
  ghost predicate Created(st: Store, st': Store, sid: SurveyId, owner: UserId,
                    title: string, description: string, texts: seq<string>)
  {
    && sid == st.nextSurvey
    && sid !in st.surveys
    && st'.surveys == st.surveys[sid := Survey(owner, title, Some(description), true)]
    && (forall o :: o in st'.options <==> o in st.options || st.nextOption <= o < st.nextOption + |texts|)
    && (forall o :: o in st.options ==> st'.options[o] == st.options[o])
    && Numbered(st'.options, sid, st.nextOption, texts)
    && st'.nextSurvey == sid + 1
    && st'.nextOption == st.nextOption + |texts|
    && st'.users == st.users
    && st'.responses == st.responses
    && st'.nextUser == st.nextUser
    && st'.nextResponse == st.nextResponse
  }

  /** POST /survey/create. Anonymous callers are sent to log in; then a blank
      title is refused, before the option count is looked at; then fewer than
      two non-blank option slots are refused. Otherwise the survey and all its
      options are added in one step. */
  function Create(st: Store, caller: Option<UserId>, form: Form): (r: Step<SurveyId>)
    requires Valid(st)
    ensures Valid(r.store)
    ensures !Authenticated(st, caller) ==> r == Step(Err(LoginRequired), st)
    ensures Authenticated(st, caller) && Trim(Field(form, "title")) == [] ==>
              r == Step(Err(TitleRequired), st)
    ensures Authenticated(st, caller) && Trim(Field(form, "title")) != [] && |OptionTexts(form)| < 2 ==>
              r == Step(Err(TooFewOptions), st)
    ensures Authenticated(st, caller) && Trim(Field(form, "title")) != [] && |OptionTexts(form)| >= 2 ==>
              && r.result.Ok?
              && Created(st, r.store, r.result.value, caller.value,
                         Trim(Field(form, "title")), Trim(Field(form, "description")), OptionTexts(form))
  {
    if !Authenticated(st, caller) then Step(Err(LoginRequired), st)
    else
      var title := Trim(Field(form, "title"));
      var description := Trim(Field(form, "description"));
      var texts := OptionTexts(form);
      if title == [] then Step(Err(TitleRequired), st)
      else if |texts| < 2 then Step(Err(TooFewOptions), st)
      else
        var st' := AddSurvey(st, caller.value, title, description, texts);
        Step(Ok(st.nextSurvey), st')
  }

  /** The insertion of a survey and its options under the next free ids. */
  function AddSurvey(st: Store, owner: UserId, title: string, description: string,
                     texts: seq<string>): (r: Store)
    requires Valid(st) && owner in st.users
    ensures Valid(r)
    ensures Created(st, r, st.nextSurvey, owner, title, description, texts)
  {
    var sid := st.nextSurvey;
    var options := AddOptions(st.options, sid, st.nextOption, texts);
    var r := st.(surveys := st.surveys[sid := Survey(owner, title, Some(description), true)],
                 options := options,
                 nextSurvey := sid + 1,
                 nextOption := st.nextOption + |texts|);
    assert forall o :: o in options && o !in st.options ==> options[o].survey == sid by {
      forall o | o in options && o !in st.options
        ensures options[o].survey == sid
      {
        var k := o - st.nextOption;
        assert 0 <= k < |texts| && texts[k] == texts[k];
        assert options[st.nextOption + k] == SurveyOption(sid, texts[k], k + 1);
      }
    }
    r
  }

  /** `for idx, text in enumerate(texts, 1)`: option `idx` of survey `sid`
      gets the next option id, the text and position `idx`. */
  function AddOptions(options: map<OptionId, SurveyOption>, sid: SurveyId, base: nat,
                      texts: seq<string>): (r: map<OptionId, SurveyOption>)
    requires forall o :: o in options ==> o < base
    ensures forall o :: o in r <==> o in options || base <= o < base + |texts|
    ensures forall o :: o in options ==> r[o] == options[o]
    ensures forall k :: 0 <= k < |texts| ==> r[base + k] == SurveyOption(sid, texts[k], k + 1)
  {
    if texts == [] then options
    else
      var n := |texts| - 1;
      AddOptions(options, sid, base, texts[..n])[base + n := SurveyOption(sid, texts[n], n + 1)]
  }

  /** GET /survey/<id>/toggle. Only the owner finds the survey; for anyone
      else it is "not found", exactly as if it did not exist. The owner's
      request flips the active flag and nothing else. */
  function Toggle(st: Store, caller: Option<UserId>, sid: SurveyId): (r: Step<bool>)
    requires Valid(st)
    ensures Valid(r.store)
    ensures !Authenticated(st, caller) ==> r == Step(Err(LoginRequired), st)
    ensures Authenticated(st, caller) && !OwnedBy(st, caller, sid) ==> r == Step(Err(SurveyNotFound), st)
    ensures OwnedBy(st, caller, sid) ==>
              && r.result == Ok(!st.surveys[sid].isActive)
              && r.store.surveys.Keys == st.surveys.Keys
              && r.store.surveys[sid].isActive == !st.surveys[sid].isActive
              && r.store.surveys[sid].(isActive := st.surveys[sid].isActive) == st.surveys[sid]
              && (forall s :: s in st.surveys && s != sid ==> r.store.surveys[s] == st.surveys[s])
              && r.store.(surveys := st.surveys) == st
  {
    if !Authenticated(st, caller) then Step(Err(LoginRequired), st)
    else if !OwnedBy(st, caller, sid) then Step(Err(SurveyNotFound), st)
    else
      var s := st.surveys[sid];
      Step(Ok(!s.isActive), st.(surveys := st.surveys[sid := s.(isActive := !s.isActive)]))
  }

  /** What the public page shows: the survey and its options in display order. */
  datatype Ballot = Ballot(survey: Survey, options: seq<OptionId>)

  /** GET /s/<id>. Only an existing, active survey is shown; a missing and an
      inactive survey give the same 404. */
  function PublicSurvey(st: Store, sid: SurveyId): (r: Result<Ballot>)
    requires Valid(st)
    ensures r.Ok? <==> Open(st, sid)
    ensures r.Err? ==> r.error == NotFoundOrInactive
    ensures r.Ok? ==>
              && r.value.survey == st.surveys[sid]
              && InOrder(st.options, r.value.options)
              && forall o :: o in r.value.options <==> o in st.options && st.options[o].survey == sid
  {
    if !Open(st, sid) then Err(NotFoundOrInactive)
    else Ok(Ballot(st.surveys[sid], OptionsOf(st, sid)))
  }

  /** The respondent email as stored: stripped, and absent when blank. */
  function StoredEmail(raw: string): (r: Option<string>)
    ensures r.None? <==> AllSpace(raw)
    ensures r.Some? ==> r.value == Trim(raw) && r.value != []
  {
    var e := Trim(raw);
    if e == [] then None else Some(e)
  }

  /** POST /s/<id>. `choice` is the submitted `option_id`, already read as a
      number, or None when the field is missing or empty. A closed survey is
      refused with the 404 first; then a missing choice. Otherwise exactly
      one response is appended, naming this survey and the submitted option
      id as is: nothing checks that the id is an option of this survey. */
  function Respond(st: Store, sid: SurveyId, choice: Option<int>, form: Form): (r: Step<ResponseId>)
    requires Valid(st)
    ensures Valid(r.store)
    ensures !Open(st, sid) ==> r == Step(Err(NotFoundOrInactive), st)
    ensures Open(st, sid) && choice.None? ==> r == Step(Err(NoOptionSelected), st)
    ensures r.result.Ok? <==> Open(st, sid) && choice.Some?
    ensures r.result.Ok? ==>
              && (forall i :: 0 <= i < |st.responses| ==> st.responses[i].id < r.result.value)
              && r.store.responses ==
                   st.responses + [SurveyResponse(r.result.value, sid, choice.value, StoredEmail(Field(form, "email")))]
              && r.store.(responses := st.responses, nextResponse := st.nextResponse) == st
  {
    if !Open(st, sid) then Step(Err(NotFoundOrInactive), st)
    else if choice.None? then Step(Err(NoOptionSelected), st)
    else
      var x := SurveyResponse(st.nextResponse, sid, choice.value, StoredEmail(Field(form, "email")));
      AddResponseValid(st, x);
      Step(Ok(st.nextResponse), st.(responses := st.responses + [x], nextResponse := st.nextResponse + 1))
  }

  /** What the results page shows. */
  datatype Report = Report(survey: Survey, rows: seq<Row>, total: nat)

  /** GET /survey/<id>/results. Only the owner finds the survey. The page has
      one row per option of the survey, in display order, counting the
      responses that carry that option's id (zero when there are none), and
      a total that is the sum of the rows. */
  function Results(st: Store, caller: Option<UserId>, sid: SurveyId): (r: Result<Report>)
    requires Valid(st)
    ensures !Authenticated(st, caller) ==> r == Err(LoginRequired)
    ensures Authenticated(st, caller) && !OwnedBy(st, caller, sid) ==> r == Err(SurveyNotFound)
    ensures r.Ok? <==> OwnedBy(st, caller, sid)
    ensures r.Ok? ==>
              var ids := OptionsOf(st, sid);
              && r.value.survey == st.surveys[sid]
              && |r.value.rows| == |ids|
              && (forall i :: 0 <= i < |ids| ==>
                    && r.value.rows[i].text == st.options[ids[i]].text
                    && r.value.rows[i].order == st.options[ids[i]].order
                    && r.value.rows[i].votes == Votes(st.responses, ids[i]))
              && (forall i, j :: 0 <= i < j < |ids| ==> r.value.rows[i].order <= r.value.rows[j].order)
              && r.value.total == Total(r.value.rows)
              && r.value.total == VotesIn(st.responses, ids)
  {
    if !Authenticated(st, caller) then Err(LoginRequired)
    else if !OwnedBy(st, caller, sid) then Err(SurveyNotFound)
    else
      var ids := OptionsOf(st, sid);
      var rows := Rows(st.options, st.responses, ids);
      TotalIsVotesIn(st.options, st.responses, ids);
      Ok(Report(st.surveys[sid], rows, Total(rows)))
  }
}
