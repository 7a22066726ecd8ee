/**
 Properties that relate several routes: what a newly created survey looks
 like on the public page and on the dashboard, toggling twice, closing a
 survey, and how a recorded vote shows up on the results page.
 */
module Lifecycle {
  import opened Outcomes
  import opened Text
  import opened Models
  import opened Queries
  import opened Tally
  import opened Surveys
  import opened Auth
  import opened Cascade

  /** The ids `lo`, `lo + 1`, ..., `lo + n - 1`. */
  function IdRange(lo: nat, n: nat): seq<OptionId> {
    seq(n, k => lo + k)
  }

  /** Extending a range by one id appends that id. */
  lemma IdRangeSnoc(lo: nat, n: nat)
    ensures IdRange(lo, n + 1) == IdRange(lo, n) + [lo + n]
  {
    assert forall k :: 0 <= k < n ==> IdRange(lo, n + 1)[k] == IdRange(lo, n)[k];
  }

  /** No option of `sid` lies below `hi`, so the scan below `hi` finds none. */
  lemma {:induction false} ScanNone(options: map<OptionId, SurveyOption>, sid: SurveyId, hi: nat)
    requires forall o :: o in options && options[o].survey == sid ==> hi <= o
    ensures ScanOptions(options, sid, hi) == []
  {
    if hi > 0 {
      ScanNone(options, sid, hi - 1);
    }
  }

  /** When the options of `sid` are exactly the ids `lo .. lo + n - 1`, the
      scan below `hi` finds those below `hi`, in id order. */
  lemma {:induction false} ScanBlock(options: map<OptionId, SurveyOption>, sid: SurveyId,
                                     lo: nat, n: nat, hi: nat)
    requires forall o :: o in options && options[o].survey == sid <==> lo <= o < lo + n
    requires lo <= hi <= lo + n
    ensures ScanOptions(options, sid, hi) == IdRange(lo, hi - lo)
    decreases hi
  {
    var r := ScanOptions(options, sid, hi);
    if hi == lo {
      ScanNone(options, sid, hi);
      assert IdRange(lo, hi - lo) == [];
    } else {
      var m := hi - 1 - lo;
      ScanBlock(options, sid, lo, n, hi - 1);
      assert hi - 1 in options && options[hi - 1].survey == sid;
      assert r == IdRange(lo, m) + [hi - 1];
      IdRangeSnoc(lo, m);
      assert m + 1 == hi - lo && lo + m == hi - 1;
    }
  }

  /** What a successful creation tells: the caller was signed in, the title
      and at least two option texts were there, and the store changed only
      by the new survey and its options. */
  lemma CreateOk(st: Store, caller: Option<UserId>, form: Form)
    requires Valid(st)
    requires Create(st, caller, form).result.Ok?
    ensures var r := Create(st, caller, form);
            && Authenticated(st, caller)
            && Trim(Field(form, "title")) != []
            && 2 <= |OptionTexts(form)| <= 5
            && r.result.value == st.nextSurvey
            && Valid(r.store)
            && Created(st, r.store, r.result.value, caller.value,
                       Trim(Field(form, "title")), Trim(Field(form, "description")), OptionTexts(form))
  {
  }

  /** A created survey is open, and its public page lists exactly its new
      options in slot order: the `k`-th listed option is the one with the
      `k`-th non-blank slot text, at position `k + 1`. */
  lemma CreateThenBallot(st: Store, caller: Option<UserId>, form: Form)
    requires Valid(st)
    requires Create(st, caller, form).result.Ok?
    ensures var r := Create(st, caller, form);
            var sid := r.result.value;
            var ballot := PublicSurvey(r.store, sid);
            && ballot.Ok?
            && ballot.value.survey.isActive
            && ballot.value.options == IdRange(st.nextOption, |OptionTexts(form)|)
            && Numbered(r.store.options, sid, st.nextOption, OptionTexts(form))
  {
    var r := Create(st, caller, form);
    CreateOk(st, caller, form);
    CreatedBallot(st, r.store, r.result.value, caller.value,
                  Trim(Field(form, "title")), Trim(Field(form, "description")), OptionTexts(form));
  }

  /** The ballot facts of a creation, stated for any store pair it relates. */
  lemma CreatedBallot(st: Store, st': Store, sid: SurveyId, owner: UserId,
                      title: string, description: string, texts: seq<string>)
    requires Valid(st) && Valid(st')
    requires Created(st, st', sid, owner, title, description, texts)
    ensures var ballot := PublicSurvey(st', sid);
            && ballot.Ok?
            && ballot.value.survey.isActive
            && ballot.value.options == IdRange(st.nextOption, |texts|)
            && OptionsOf(st', sid) == IdRange(st.nextOption, |texts|)
  {
    NewOptionsBlock(st, st', sid, owner, title, description, texts);
    NewOptionsListed(st', sid, st.nextOption, texts);
    OpenBallot(st', sid);
  }

  /** The public page of an open survey shows it with its option listing. */
  lemma OpenBallot(st: Store, sid: SurveyId)
    requires Valid(st) && Open(st, sid)
    ensures PublicSurvey(st, sid) == Ok(Ballot(st.surveys[sid], OptionsOf(st, sid)))
  {
  }

  /** When the options of survey `sid` are exactly the last `|texts|` ids
      handed out, numbered `1 ..` in id order, the survey's listing is those
      ids in id order. */
  lemma NewOptionsListed(st: Store, sid: SurveyId, base: nat, texts: seq<string>)
    requires Valid(st)
    requires st.nextOption == base + |texts|
    requires forall o :: o in st.options && st.options[o].survey == sid <==> base <= o < base + |texts|
    requires Numbered(st.options, sid, base, texts)
    ensures OptionsOf(st, sid) == IdRange(base, |texts|)
  {
    var ids := IdRange(base, |texts|);
    ScanBlock(st.options, sid, base, |texts|, base + |texts|);
    NewOptionsInOrder(st.options, sid, base, texts);
    OptionsOfScanned(st, sid, ids);
  }

  /** Options numbered `1 .. n` under consecutive ids stand in display order
      when listed by id. */
  lemma NewOptionsInOrder(options: map<OptionId, SurveyOption>, sid: SurveyId, base: nat, texts: seq<string>)
    requires Numbered(options, sid, base, texts)
    ensures InOrder(options, IdRange(base, |texts|))
  {
    var ids := IdRange(base, |texts|);
    forall i | 0 <= i < |texts|
      ensures ids[i] in options && options[ids[i]] == SurveyOption(sid, texts[i], i + 1)
    {
      assert texts[i] == texts[i];
    }
  }

  /** After a creation, an option belongs to the new survey exactly when it
      is one of the new option ids. */
  lemma NewOptionsBlock(st: Store, st': Store, sid: SurveyId, owner: UserId,
                        title: string, description: string, texts: seq<string>)
    requires Valid(st)
    requires Created(st, st', sid, owner, title, description, texts)
    ensures forall o :: o in st'.options && st'.options[o].survey == sid <==>
                        st.nextOption <= o < st.nextOption + |texts|
  {
    var base := st.nextOption;
    forall o
      ensures o in st'.options && st'.options[o].survey == sid <==> base <= o < base + |texts|
    {
      if o in st.options {
        assert st.options[o].survey in st.surveys;
      } else if base <= o < base + |texts| {
        var k := o - base;
        assert texts[k] == texts[k];
        assert st'.options[base + k] == SurveyOption(sid, texts[k], k + 1);
      }
    }
  }

  /** The scan of owned surveys below `hi` looks only at surveys below `hi`. */
  lemma {:induction false} ScanOwnedAgree(a: map<SurveyId, Survey>, b: map<SurveyId, Survey>,
                                          owner: UserId, hi: nat)
    requires forall s :: s in a && s < hi ==> s in b && b[s] == a[s]
    requires forall s :: s in b && s < hi ==> s in a
    ensures ScanOwned(a, owner, hi) == ScanOwned(b, owner, hi)
  {
    if hi > 0 {
      ScanOwnedAgree(a, b, owner, hi - 1);
    }
  }

  /** A created survey heads its owner's dashboard, above all earlier ones. */
  lemma CreateThenDashboard(st: Store, caller: Option<UserId>, form: Form)
    requires Valid(st)
    requires Create(st, caller, form).result.Ok?
    ensures var r := Create(st, caller, form);
            && Dashboard(st, caller).Ok?
            && Dashboard(r.store, caller) == Ok([r.result.value] + Dashboard(st, caller).value)
  {
    var r := Create(st, caller, form);
    CreateOk(st, caller, form);
    CreatedDashboard(st, r.store, r.result.value, caller,
                     Trim(Field(form, "title")), Trim(Field(form, "description")), OptionTexts(form));
  }

  /** The dashboard facts of a creation, stated for any store pair it relates. */
  lemma CreatedDashboard(st: Store, st': Store, sid: SurveyId, caller: Option<UserId>,
                         title: string, description: string, texts: seq<string>)
    requires Valid(st) && Valid(st') && Authenticated(st, caller)
    requires Created(st, st', sid, caller.value, title, description, texts)
    ensures Dashboard(st, caller).Ok?
    ensures Dashboard(st', caller) == Ok([sid] + Dashboard(st, caller).value)
  {
    var owner := caller.value;
    assert Dashboard(st', caller) == Ok(ScanOwned(st'.surveys, owner, sid + 1));
    assert ScanOwned(st'.surveys, owner, sid + 1) == [sid] + ScanOwned(st'.surveys, owner, sid);
    ScanOwnedAgree(st'.surveys, st.surveys, owner, sid);
    assert Dashboard(st, caller) == Ok(ScanOwned(st.surveys, owner, sid));
  }

  /** Toggling twice restores the store, whoever asks; for the owner the
      second toggle reports the original flag. */
  lemma ToggleTwice(st: Store, caller: Option<UserId>, sid: SurveyId)
    requires Valid(st)
    ensures var once := Toggle(st, caller, sid);
            var twice := Toggle(once.store, caller, sid);
            && twice.store == st
            && (OwnedBy(st, caller, sid) ==> twice.result == Ok(st.surveys[sid].isActive))
  {
    if OwnedBy(st, caller, sid) {
      var s0 := st.surveys[sid];
      var st1 := st.(surveys := st.surveys[sid := s0.(isActive := !s0.isActive)]);
      assert Toggle(st, caller, sid) == Step(Ok(!s0.isActive), st1);
      assert OwnedBy(st1, caller, sid);
      assert st1.surveys[sid := s0] == st.surveys;
      assert Toggle(st1, caller, sid) == Step(Ok(s0.isActive), st1.(surveys := st.surveys));
    }
  }

  /** Once its owner switches an active survey off, its public page and its
      response form both answer the same 404 as a survey that does not exist. */
  lemma ToggleOffHides(st: Store, caller: Option<UserId>, sid: SurveyId, missing: SurveyId,
                       choice: Option<int>, form: Form)
    requires Valid(st)
    requires OwnedBy(st, caller, sid) && st.surveys[sid].isActive
    requires missing !in st.surveys
    ensures var st' := Toggle(st, caller, sid).store;
            && PublicSurvey(st', sid) == PublicSurvey(st', missing) == Err(NotFoundOrInactive)
            && Respond(st', sid, choice, form) == Step(Err(NotFoundOrInactive), st')
            && Respond(st', missing, choice, form) == Step(Err(NotFoundOrInactive), st')
  {
    var st' := Toggle(st, caller, sid).store;
    assert st'.surveys.Keys == st.surveys.Keys;
  }

  /** For a signed-in caller who does not own survey `sid`, toggling it and
      asking for its results answer exactly as for an id no survey has, and
      change nothing. */
  lemma StrangerSeesNothing(st: Store, caller: Option<UserId>, sid: SurveyId, missing: SurveyId)
    requires Valid(st)
    requires Authenticated(st, caller) && !OwnedBy(st, caller, sid)
    requires missing !in st.surveys
    ensures Toggle(st, caller, sid) == Toggle(st, caller, missing) == Step(Err(SurveyNotFound), st)
    ensures Results(st, caller, sid) == Results(st, caller, missing) == Err(SurveyNotFound)
  {
  }

  /** After logging out, every owner route sends the session to log in and
      leaves the store as it was. */
  lemma LogoutLocksOut(st: Store, caller: Option<UserId>, form: Form, sid: SurveyId)
    requires Valid(st)
    ensures var session := Logout(st, caller);
            && Dashboard(st, session) == Err(LoginRequired)
            && Create(st, session, form) == Step(Err(LoginRequired), st)
            && Toggle(st, session, sid) == Step(Err(LoginRequired), st)
            && Results(st, session, sid) == Err(LoginRequired)
  {
  }

  /** A deleted survey is gone for every route: its owner's toggle and
      results say "not found", and its public page answers the 404. */
  lemma DeleteSurveyHides(st: Store, caller: Option<UserId>, sid: SurveyId)
    requires Valid(st) && Authenticated(st, caller)
    ensures var st' := DeleteSurvey(st, sid);
            && Toggle(st', caller, sid) == Step(Err(SurveyNotFound), st')
            && Results(st', caller, sid) == Err(SurveyNotFound)
            && PublicSurvey(st', sid) == Err(NotFoundOrInactive)
  {
  }

  /** Once a user is deleted, a session still naming that user is anonymous:
      the dashboard sends it to log in. */
  lemma DeleteUserLogsOut(st: Store, uid: UserId)
    requires Valid(st)
    ensures Dashboard(DeleteUser(st, uid), Some(uid)) == Err(LoginRequired)
  {
  }

  /** A vote recorded on any survey adds one to the row of every results
      page listing the option id it carries, and to that page's total; other
      rows and pages are unchanged. */
  lemma RespondThenResults(st: Store, sid: SurveyId, choice: Option<int>, form: Form,
                           caller: Option<UserId>, target: SurveyId)
    requires Valid(st)
    requires Respond(st, sid, choice, form).result.Ok?
    requires OwnedBy(st, caller, target)
    ensures var st' := Respond(st, sid, choice, form).store;
            var before := Results(st, caller, target).value;
            var after := Results(st', caller, target);
            var ids := OptionsOf(st, target);
            && after.Ok?
            && |after.value.rows| == |before.rows| == |ids|
            && (forall i :: 0 <= i < |ids| ==>
                  after.value.rows[i] == before.rows[i].(votes := before.rows[i].votes + if ids[i] == choice.value then 1 else 0))
            && after.value.total == before.total + if choice.value in ids then 1 else 0
  {
    var r := Respond(st, sid, choice, form);
    var st' := r.store;
    var x := SurveyResponse(r.result.value, sid, choice.value, StoredEmail(Field(form, "email")));
    assert st'.responses == st.responses + [x];
    assert OptionsOf(st', target) == OptionsOf(st, target);
    var ids := OptionsOf(st, target);
    forall i | 0 <= i < |ids|
      ensures Votes(st'.responses, ids[i]) == Votes(st.responses, ids[i]) + if ids[i] == choice.value then 1 else 0
    {
      VotesAppend(st.responses, x, ids[i]);
    }
    VotesAppend(st.responses, x, 0);
  }

  /** The code does not check that a submitted option id belongs to the
      survey being answered: a vote posted to survey `sid` with an option id
      of another survey `t` is stored under `sid` but counted on `t`'s
      results page, and `sid`'s total does not move. */
  lemma StrayVoteCountsElsewhere(st: Store, cs: Option<UserId>, ct: Option<UserId>, sid: SurveyId,
                                 t: SurveyId, o: OptionId, form: Form)
    requires Valid(st)
    requires Open(st, sid) && OwnedBy(st, cs, sid) && OwnedBy(st, ct, t)
    requires o in st.options && st.options[o].survey == t && t != sid
    ensures var st' := Respond(st, sid, Some(o), form).store;
            && st'.responses[|st'.responses| - 1].survey == sid
            && Results(st', cs, sid).value.total == Results(st, cs, sid).value.total
            && Results(st', ct, t).value.total == Results(st, ct, t).value.total + 1
  {
    RespondThenResults(st, sid, Some(o), form, cs, sid);
    RespondThenResults(st, sid, Some(o), form, ct, t);
  }

  /** Votes are counted wherever some response carries the option id. */
  lemma {:induction false} VotesPositive(rs: seq<SurveyResponse>, o: int, i: nat)
    requires i < |rs| && rs[i].option == o
    ensures Votes(rs, o) >= 1
  {
    if i < |rs| - 1 {
      VotesPositive(rs[..|rs| - 1], o, i);
    }
  }

  /** No response carries the option id, so it has no votes. */
  lemma {:induction false} VotesAbsent(rs: seq<SurveyResponse>, o: int)
    requires forall i :: 0 <= i < |rs| ==> rs[i].option < o
    ensures Votes(rs, o) == 0
  {
    if rs != [] {
      VotesAbsent(rs[..|rs| - 1], o);
    }
  }

  /** Because submitted option ids are stored unchecked, a response can
      carry an id that no option has yet; once survey creation hands that id
      to a new option, the new survey's results start with that vote. */
  lemma EarlyVoteCounted(st: Store, caller: Option<UserId>, form: Form, i: nat)
    requires Valid(st)
    requires Create(st, caller, form).result.Ok?
    requires i < |st.responses| && st.responses[i].option == st.nextOption
    ensures var r := Create(st, caller, form);
            var report := Results(r.store, caller, r.result.value);
            report.Ok? && report.value.rows[0].votes >= 1 && report.value.total >= 1
  {
    var r := Create(st, caller, form);
    CreateThenBallot(st, caller, form);
    assert OptionsOf(r.store, r.result.value)[0] == st.nextOption;
    VotesPositive(r.store.responses, st.nextOption, i);
  }

  /** The first vote on a new survey, cast for its first option, shows up as
      one vote on the first row, zero on every other row and a total of one,
      provided no earlier response carried an option id not yet handed out. */
  lemma FirstVoteTally(st: Store, caller: Option<UserId>, form: Form, voter: Form)
    requires Valid(st)
    requires Create(st, caller, form).result.Ok?
    requires forall i :: 0 <= i < |st.responses| ==> st.responses[i].option < st.nextOption
    ensures var made := Create(st, caller, form);
            var sid := made.result.value;
            var texts := OptionTexts(form);
            var voted := Respond(made.store, sid, Some(st.nextOption), voter);
            var report := Results(voted.store, caller, sid);
            && voted.result.Ok?
            && report.Ok?
            && report.value.survey == made.store.surveys[sid]
            && |report.value.rows| == |texts|
            && (forall k :: 0 <= k < |texts| ==>
                  report.value.rows[k] == Row(texts[k], k + 1, if k == 0 then 1 else 0))
            && report.value.total == 1
  {
    var made := Create(st, caller, form);
    CreateOk(st, caller, form);
    FirstVoteAfterCreated(st, made.store, made.result.value, caller,
                          Trim(Field(form, "title")), Trim(Field(form, "description")), OptionTexts(form), voter);
  }

  /** The first-vote tally, stated for any store pair a creation relates. */
  lemma FirstVoteAfterCreated(st: Store, st': Store, sid: SurveyId, caller: Option<UserId>,
                              title: string, description: string, texts: seq<string>, voter: Form)
    requires Valid(st) && Valid(st') && Authenticated(st, caller) && 1 <= |texts|
    requires Created(st, st', sid, caller.value, title, description, texts)
    requires forall i :: 0 <= i < |st.responses| ==> st.responses[i].option < st.nextOption
    ensures var voted := Respond(st', sid, Some(st.nextOption), voter);
            var report := Results(voted.store, caller, sid);
            && voted.result.Ok?
            && report.Ok?
            && report.value.survey == st'.surveys[sid]
            && |report.value.rows| == |texts|
            && (forall k :: 0 <= k < |texts| ==>
                  report.value.rows[k] == Row(texts[k], k + 1, if k == 0 then 1 else 0))
            && report.value.total == 1
  {
    CreatedBallot(st, st', sid, caller.value, title, description, texts);
    assert Numbered(st'.options, sid, st.nextOption, texts);
    assert st'.responses == st.responses && st'.users == st.users;
    assert OwnedBy(st', caller, sid) && Open(st', sid);
    FirstVoteOnListed(st', caller, sid, st.nextOption, texts, voter);
  }

  /** The first vote, cast for option id `base`, on an open survey of the
      caller whose options are the ids `base ..` numbered `1 ..`, when no
      response so far carries an id at or above `base`. */
  lemma FirstVoteOnListed(st: Store, caller: Option<UserId>, sid: SurveyId, base: nat,
                          texts: seq<string>, voter: Form)
    requires Valid(st) && OwnedBy(st, caller, sid) && Open(st, sid)
    requires 1 <= |texts|
    requires OptionsOf(st, sid) == IdRange(base, |texts|)
    requires Numbered(st.options, sid, base, texts)
    requires forall i :: 0 <= i < |st.responses| ==> st.responses[i].option < base
    ensures var voted := Respond(st, sid, Some(base), voter);
            var report := Results(voted.store, caller, sid);
            && voted.result.Ok?
            && report.Ok?
            && report.value.survey == st.surveys[sid]
            && |report.value.rows| == |texts|
            && (forall k :: 0 <= k < |texts| ==>
                  report.value.rows[k] == Row(texts[k], k + 1, if k == 0 then 1 else 0))
            && report.value.total == 1
  {
    var voted := Respond(st, sid, Some(base), voter);
    var x := SurveyResponse(voted.result.value, sid, base, StoredEmail(Field(voter, "email")));
    var st2 := voted.store;
    RespondKeeps(st, sid, Some(base), voter);
    SameListing(st, st2, sid);
    FirstVoteOnFresh(st2, caller, sid, base, texts, st.responses, x);
  }

  /** A recorded vote changes the response table and nothing else. */
  lemma RespondKeeps(st: Store, sid: SurveyId, choice: Option<int>, form: Form)
    requires Valid(st) && Open(st, sid) && choice.Some?
    ensures var r := Respond(st, sid, choice, form);
            && r.store.responses == st.responses + [SurveyResponse(r.result.value, sid, choice.value, StoredEmail(Field(form, "email")))]
            && r.store.users == st.users && r.store.surveys == st.surveys
            && r.store.options == st.options && r.store.nextOption == st.nextOption
  {
  }

  /** The option listing of a survey depends only on the option table. */
  lemma SameListing(a: Store, b: Store, sid: SurveyId)
    requires Valid(a) && Valid(b)
    requires a.options == b.options && a.nextOption == b.nextOption
    ensures OptionsOf(a, sid) == OptionsOf(b, sid)
  {
  }

  /** The results page of a survey whose options are the ids `base ..`,
      numbered `1 ..`, when the last response carries `base` and no earlier
      one carries an id at or above `base`: one vote for option 1, none for
      the others, total one. */
  lemma FirstVoteOnFresh(st: Store, caller: Option<UserId>, sid: SurveyId, base: nat,
                         texts: seq<string>, earlier: seq<SurveyResponse>, x: SurveyResponse)
    requires Valid(st) && OwnedBy(st, caller, sid)
    requires 1 <= |texts|
    requires OptionsOf(st, sid) == IdRange(base, |texts|)
    requires Numbered(st.options, sid, base, texts)
    requires st.responses == earlier + [x] && x.option == base
    requires forall i :: 0 <= i < |earlier| ==> earlier[i].option < base
    ensures var report := Results(st, caller, sid);
            && report.Ok?
            && |report.value.rows| == |texts|
            && (forall k :: 0 <= k < |texts| ==>
                  report.value.rows[k] == Row(texts[k], k + 1, if k == 0 then 1 else 0))
            && report.value.total == 1
  {
    var ids := IdRange(base, |texts|);
    FreshVotes(earlier, x, base, |texts|);
    NumberedRows(st.options, st.responses, sid, base, texts);
    var rows := Rows(st.options, st.responses, ids);
    assert Results(st, caller, sid) == Ok(Report(st.surveys[sid], rows, Total(rows)));
  }

  /** The result rows of options numbered `1 ..` under the ids `base ..`
      carry their texts and positions in that order. */
  lemma NumberedRows(options: map<OptionId, SurveyOption>, rs: seq<SurveyResponse>, sid: SurveyId,
                     base: nat, texts: seq<string>)
    requires Numbered(options, sid, base, texts)
    ensures forall i :: 0 <= i < |texts| ==> IdRange(base, |texts|)[i] in options
    ensures forall k :: 0 <= k < |texts| ==>
              Rows(options, rs, IdRange(base, |texts|))[k]
                == Row(texts[k], k + 1, Votes(rs, IdRange(base, |texts|)[k]))
  {
    var ids := IdRange(base, |texts|);
    forall k | 0 <= k < |texts|
      ensures ids[k] in options && options[ids[k]] == SurveyOption(sid, texts[k], k + 1)
    {
      assert ids[k] == base + k && texts[k] == texts[k];
    }
  }

  /** Responses of which only the last, `x`, carries an id at or above
      `base`, and it carries `base`: among the ids `base .. base + n - 1`
      the first has one vote and the others none, one vote in all. */
  lemma FreshVotes(earlier: seq<SurveyResponse>, x: SurveyResponse, base: nat, n: nat)
    requires x.option == base && 1 <= n
    requires forall i :: 0 <= i < |earlier| ==> earlier[i].option < base
    ensures forall k :: 0 <= k < n ==> Votes(earlier + [x], IdRange(base, n)[k]) == if k == 0 then 1 else 0
    ensures VotesIn(earlier + [x], IdRange(base, n)) == 1
  {
    var ids := IdRange(base, n);
    forall k | 0 <= k < n
      ensures Votes(earlier + [x], ids[k]) == if k == 0 then 1 else 0
    {
      VotesAppend(earlier, x, ids[k]);
      VotesAbsent(earlier, ids[k]);
    }
    VotesAppend(earlier, x, base);
    VotesInNoneAbsent(earlier, ids, base);
    assert base == ids[0];
  }

  /** No response carries an id at or above `lo`, so none of the ids in a
      list of such ids gets a vote. */
  lemma {:induction false} VotesInNoneAbsent(rs: seq<SurveyResponse>, ids: seq<OptionId>, lo: nat)
    requires forall i :: 0 <= i < |rs| ==> rs[i].option < lo
    requires forall k :: 0 <= k < |ids| ==> ids[k] >= lo
    ensures VotesIn(rs, ids) == 0
  {
    if rs != [] {
      VotesInNoneAbsent(rs[..|rs| - 1], ids, lo);
      assert rs[|rs| - 1].option !in ids;
    }
  }
}
