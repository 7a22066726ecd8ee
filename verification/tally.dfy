/**
 Vote counting for the results page. The results query is an outer join of
 a survey's options with all responses on `option_id`, grouped per option,
 so an option without votes still yields a row with count 0.
 */
module Tally {
  import opened Models

  /** `count(SurveyResponse.id)` in the group of option `o`: how many
      responses carry `o` as their option id, whatever survey they name. */
  function Votes(rs: seq<SurveyResponse>, o: int): (r: nat)
    ensures r <= |rs|
  {
    if rs == [] then 0
    else Votes(rs[..|rs| - 1], o) + (if rs[|rs| - 1].option == o then 1 else 0)
  }

  /** How many responses carry one of the option ids in `ids`. */
  function VotesIn(rs: seq<SurveyResponse>, ids: seq<OptionId>): (r: nat)
    ensures r <= |rs|
  {
    if rs == [] then 0
    else VotesIn(rs[..|rs| - 1], ids) + (if rs[|rs| - 1].option in ids then 1 else 0)
  }

  /** One line of the results page. */
  datatype Row = Row(text: string, order: int, votes: nat)

  /** The grouped rows, one per option id of `ids`, in that order. */
  function Rows(options: map<OptionId, SurveyOption>, rs: seq<SurveyResponse>, ids: seq<OptionId>): seq<Row>
    requires forall i :: 0 <= i < |ids| ==> ids[i] in options
  {
    seq(|ids|, i requires 0 <= i < |ids| => Row(options[ids[i]].text, options[ids[i]].order, Votes(rs, ids[i])))
  }

  /** `sum(r.vote_count for r in results)` */
  function Total(rows: seq<Row>): nat {
    if rows == [] then 0 else rows[0].votes + Total(rows[1..])
  }

  /** Recording one more response adds one vote to its option and to no other. */
  lemma VotesAppend(rs: seq<SurveyResponse>, x: SurveyResponse, o: int)
    ensures Votes(rs + [x], o) == Votes(rs, o) + (if x.option == o then 1 else 0)
    ensures forall ids: seq<OptionId> {:trigger VotesIn(rs + [x], ids)} ::
              VotesIn(rs + [x], ids) == VotesIn(rs, ids) + (if x.option in ids then 1 else 0)
  {
    assert (rs + [x])[..|rs|] == rs;
  }

  /** Counting the votes of `[x] + t` is counting those of `x` and then those
      of `t`, when `x` is not already among `t`. */
  lemma {:induction false} VotesInCons(rs: seq<SurveyResponse>, x: OptionId, t: seq<OptionId>)
    requires x !in t
    ensures VotesIn(rs, [x] + t) == Votes(rs, x) + VotesIn(rs, t)
  {
    if rs != [] {
      VotesInCons(rs[..|rs| - 1], x, t);
      var last := rs[|rs| - 1];
      assert last.option in [x] + t <==> last.option == x || last.option in t;
    }
  }

  /** The total on the results page is the number of responses cast for one
      of the listed options: each such response is counted in exactly one row. */
  lemma {:induction false} TotalIsVotesIn(options: map<OptionId, SurveyOption>, rs: seq<SurveyResponse>, ids: seq<OptionId>)
    requires forall i :: 0 <= i < |ids| ==> ids[i] in options
    requires forall i, j :: 0 <= i < j < |ids| ==> ids[i] != ids[j]
    ensures Total(Rows(options, rs, ids)) == VotesIn(rs, ids)
  {
    if ids == [] {
      VotesInNone(rs, ids);
    } else {
      var rows := Rows(options, rs, ids);
      assert rows[1..] == Rows(options, rs, ids[1..]);
      TotalIsVotesIn(options, rs, ids[1..]);
      assert ids == [ids[0]] + ids[1..];
      VotesInCons(rs, ids[0], ids[1..]);
    }
  }

  /** No option listed, no vote counted. */
  lemma {:induction false} VotesInNone(rs: seq<SurveyResponse>, ids: seq<OptionId>)
    requires ids == []
    ensures VotesIn(rs, ids) == 0
  {
    if rs != [] {
      VotesInNone(rs[..|rs| - 1], ids);
    }
  }
}
