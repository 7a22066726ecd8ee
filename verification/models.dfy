/**
 The persisted schema of the survey application (users, surveys, survey
 options and survey responses) as one immutable store. Each table is keyed
 by an integer primary key; a table's next key is kept explicitly, the way
 the database hands out row ids that are larger than every id in use.
 */
module Models {
  import opened Outcomes

  type UserId = nat
  type SurveyId = nat
  type OptionId = nat
  type ResponseId = nat

  /** A moment in time as supplied by the clock; only its identity matters here. */
  type Timestamp = int

  /** A registered account. Email and password hash are required columns;
      `lastLogin` is nullable and stays absent until the first successful login. */
  datatype User = User(email: string, passwordHash: string, lastLogin: Option<Timestamp>)

  /** A single-question survey. Owner and title are required, the description
      is nullable, and `isActive` gates the public response page. */
  datatype Survey = Survey(owner: UserId, title: string, description: Option<string>, isActive: bool)

  /** One answer of a survey: its survey, its text and its display position. */
  datatype SurveyOption = SurveyOption(survey: SurveyId, text: string, order: int)

  /** One submitted vote. `option` is whatever option id the form carried:
      nothing checks that it names an option, let alone one of `survey`. */
  datatype SurveyResponse = SurveyResponse(id: ResponseId, survey: SurveyId, option: int, email: Option<string>)

  /** The whole database. Responses are kept in insertion order. */
  datatype Store = Store(
    users: map<UserId, User>,
    surveys: map<SurveyId, Survey>,
    options: map<OptionId, SurveyOption>,
    responses: seq<SurveyResponse>,
    nextUser: nat,
    nextSurvey: nat,
    nextOption: nat,
    nextResponse: nat)

  /** A fresh database: no rows, and every table's first id is 1. */
  const Empty: Store := Store(map[], map[], map[], [], 1, 1, 1, 1)

  /** The `unique=True` constraint on `User.email`. */
  predicate UniqueEmails(users: map<UserId, User>) {
    forall u, v :: u in users && v in users && users[u].email == users[v].email ==> u == v
  }

  /** The constraints the schema and the routes together keep on the store:
      ids in use are positive and below the next id, emails are unique, every
      survey's owner exists, every option's survey exists, and every response
      names an existing survey and has a unique id, in insertion order. */
  predicate Valid(st: Store) {
    && 0 < st.nextUser && 0 < st.nextSurvey && 0 < st.nextOption && 0 < st.nextResponse
    && (forall u :: u in st.users ==> 0 < u < st.nextUser)
    && (forall s :: s in st.surveys ==> 0 < s < st.nextSurvey)
    && (forall o :: o in st.options ==> 0 < o < st.nextOption)
    && UniqueEmails(st.users)
    && (forall s :: s in st.surveys ==> st.surveys[s].owner in st.users)
    && (forall o :: o in st.options ==> st.options[o].survey in st.surveys)
    && (forall i :: 0 <= i < |st.responses| ==>
          0 < st.responses[i].id < st.nextResponse && st.responses[i].survey in st.surveys)
    && (forall i, j :: 0 <= i < j < |st.responses| ==> st.responses[i].id < st.responses[j].id)
  }

  /** The caller as `flask_login` sees it: a session naming a user that still
      exists. A session whose user is gone loads as anonymous. */
  predicate Authenticated(st: Store, caller: Option<UserId>) {
    caller.Some? && caller.value in st.users
  }

  /** The `User.surveys` relationship: the surveys whose owner is `uid`. */
  function SurveysOf(st: Store, uid: UserId): set<SurveyId> {
    set s | s in st.surveys && st.surveys[s].owner == uid
  }

  /** Adding a user under the next id, with an email nobody has, keeps the
      store valid. */
  lemma AddUserValid(st: Store, user: User)
    requires Valid(st)
    requires forall u :: u in st.users ==> st.users[u].email != user.email
    ensures Valid(st.(users := st.users[st.nextUser := user], nextUser := st.nextUser + 1))
  {
  }

  /** Changing a user's row without changing its email keeps the store valid. */
  lemma UpdateUserValid(st: Store, uid: UserId, user: User)
    requires Valid(st)
    requires uid in st.users && st.users[uid].email == user.email
    ensures Valid(st.(users := st.users[uid := user]))
  {
  }

  /** Appending a response under the next response id, naming an existing
      survey, keeps the store valid: response ids still increase. */
  lemma AddResponseValid(st: Store, x: SurveyResponse)
    requires Valid(st)
    requires x.id == st.nextResponse && x.survey in st.surveys
    ensures Valid(st.(responses := st.responses + [x], nextResponse := st.nextResponse + 1))
  {
    var rs := st.responses + [x];
    assert forall i :: 0 <= i < |st.responses| ==> rs[i] == st.responses[i];
  }

  /** What a route reports, together with the store after it. */
  datatype Step<+T> = Step(result: Result<T>, store: Store)
}
