/** The queries of `TournamentService` (Scorebini/Data/TournamentService.cs)
    over a built tournament view: the id at the end of a bracket URL, the
    opponents and matches still to be played, the participant ranking for
    autocompletion, and the case-insensitive name lookup. */
module TournamentQueries {
  import opened Base
  import opened Text
  import opened Sorting
  import opened Dictionaries
  import opened Levenshtein
  import opened TournamentViews

  // ---------------------------------------------------------------------
  // ExtractTournamentIdFromUrl
  // ---------------------------------------------------------------------

  /** `ExtractTournamentIdFromUrl`: the text after the last '/', or the
      whole URL when it has none. */
  function ExtractTournamentIdFromUrl(url: string): (r: string)
    ensures '/' !in r
    ensures |r| <= |url| && r == url[|url| - |r|..]
    ensures '/' !in url ==> r == url
    ensures '/' in url ==> url[|url| - |r| - 1] == '/'
  {
    var idx := LastIndexOf(url, '/');
    AfterLastSlash(url, idx);
    url[idx + 1..]
  }

  lemma AfterLastSlash(url: string, idx: int)
    requires idx == LastIndexOf(url, '/')
    ensures '/' !in url[idx + 1..]
    ensures '/' in url ==> idx >= 0
  {
    if '/' in url {
      var k :| 0 <= k < |url| && url[k] == '/';
      assert k <= idx;
    }
  }

  // ---------------------------------------------------------------------
  // GetPendingOpponents
  // ---------------------------------------------------------------------

  /** A match that is still to be played. */
  predicate Unplayed(m: Match) {
    m.status == Pending || m.status == Open
  }

  /** The opponent `m` contributes for `p`: the other side of an unplayed
      match in which `p` is a side, when that other side is set. Player 1
      is checked first. */
  function OpponentIn(m: Match, p: Participant): (r: Option<Participant>)
    ensures r.Some? ==> Unplayed(m)
    ensures r.Some? ==> (m.player1 == Some(p) && m.player2 == r) || (m.player2 == Some(p) && m.player1 == r)
    ensures Unplayed(m) && m.player1 == Some(p) && m.player2.Some? ==> r == m.player2
    ensures r.Some? <==> Unplayed(m) && ((m.player1 == Some(p) && m.player2.Some?) ||
                                         (m.player2 == Some(p) && m.player1.Some?))
  {
    if !Unplayed(m) then None
    else if m.player1 == Some(p) && m.player2.Some? then m.player2
    else if m.player2 == Some(p) && m.player1.Some? then m.player1
    else None
  }

  /** The opponents contributed by `ms`, in order, one per match. */
  function PendingOpponents(p: Participant, ms: seq<Match>): seq<Participant> {
    if ms == [] then []
    else
      var last := OpponentIn(ms[|ms| - 1], p);
      PendingOpponents(p, ms[..|ms| - 1]) + (if last.Some? then [last.value] else [])
  }

  /** `GetPendingOpponents`: nothing for a null participant or view;
      otherwise one opponent per match of the view, in map order. */
  method GetPendingOpponents(participant: Option<Participant>, tournament: Option<TournamentView>)
    returns (ret: seq<Participant>)
    ensures participant.None? || tournament.None? ==> ret == []
    ensures participant.Some? && tournament.Some? ==>
              ret == PendingOpponents(participant.value, Values(tournament.value.matches))
  {
    ret := [];
    if participant.None? || tournament.None? {
      return;
    }
    var p := participant.value;
    var matches := tournament.value.matches;
    var i := 0;
    while i < |matches|
      invariant 0 <= i <= |matches|
      invariant ret == PendingOpponents(p, Values(matches)[..i])
    {
      var m := matches[i].value;
      assert Values(matches)[..i + 1][..i] == Values(matches)[..i];
      if m.status == Pending || m.status == Open {
        if m.player1 == Some(p) && m.player2.Some? {
          ret := ret + [m.player2.value];
        } else if m.player2 == Some(p) && m.player1.Some? {
          ret := ret + [m.player1.value];
        }
      }
      i := i + 1;
    }
    assert Values(matches)[..i] == Values(matches);
  }

  /** An opponent is listed exactly when some match contributes it. */
  lemma {:induction false} PendingOpponentsMembers(p: Participant, ms: seq<Match>)
    ensures forall q :: q in PendingOpponents(p, ms) <==> exists m :: m in ms && OpponentIn(m, p) == Some(q)
  {
    if ms != [] {
      var init := ms[..|ms| - 1];
      var last := ms[|ms| - 1];
      PendingOpponentsMembers(p, init);
      assert ms == init + [last];
      forall q
        ensures q in PendingOpponents(p, ms) <==> exists m :: m in ms && OpponentIn(m, p) == Some(q)
      {
        if q in PendingOpponents(p, ms) && q !in PendingOpponents(p, init) {
          assert OpponentIn(last, p) == Some(q);
        }
        if exists m :: m in ms && OpponentIn(m, p) == Some(q) {
          var m :| m in ms && OpponentIn(m, p) == Some(q);
          if m != last {
            assert m in init;
          }
        }
      }
    }
  }

  /** The list is as long as the number of contributing matches. */
  lemma {:induction false} PendingOpponentsCount(p: Participant, ms: seq<Match>)
    ensures |PendingOpponents(p, ms)| == |set k | 0 <= k < |ms| && OpponentIn(ms[k], p).Some?|
  {
    if ms != [] {
      var init := ms[..|ms| - 1];
      PendingOpponentsCount(p, init);
      var counted := set k | 0 <= k < |ms| && OpponentIn(ms[k], p).Some?;
      var initCounted := set k | 0 <= k < |init| && OpponentIn(init[k], p).Some?;
      if OpponentIn(ms[|ms| - 1], p).Some? {
        assert counted == initCounted + {|ms| - 1};
      } else {
        assert counted == initCounted;
      }
    }
  }

  /** An opponent is listed exactly when some match contributes it, and the
      list is as long as the number of contributing matches: nothing is
      merged or dropped. */
  lemma PendingOpponentsCharacterized(p: Participant, ms: seq<Match>)
    ensures forall q :: q in PendingOpponents(p, ms) <==> exists m :: m in ms && OpponentIn(m, p) == Some(q)
    ensures |PendingOpponents(p, ms)| == |set k | 0 <= k < |ms| && OpponentIn(ms[k], p).Some?|
  {
    PendingOpponentsMembers(p, ms);
    PendingOpponentsCount(p, ms);
  }

  // ---------------------------------------------------------------------
  // GetPendingMatches
  // ---------------------------------------------------------------------

  /** A match that can be called to the stage: open, with both players. */
  predicate Playable(m: Match) {
    m.status == Open && m.player1.Some? && m.player2.Some?
  }

  function PlayableMatches(ms: seq<Match>): seq<Match> {
    if ms == [] then []
    else
      var last := ms[|ms| - 1];
      PlayableMatches(ms[..|ms| - 1]) + (if Playable(last) then [last] else [])
  }

  /** `GetPendingMatches`: nothing for a null view; otherwise the playable
      matches of the view, in map order. */
  method GetPendingMatches(tournament: Option<TournamentView>) returns (ret: seq<Match>)
    ensures tournament.None? ==> ret == []
    ensures tournament.Some? ==> ret == PlayableMatches(Values(tournament.value.matches))
  {
    ret := [];
    if tournament.None? {
      return;
    }
    var matches := tournament.value.matches;
    var i := 0;
    while i < |matches|
      invariant 0 <= i <= |matches|
      invariant ret == PlayableMatches(Values(matches)[..i])
    {
      var m := matches[i].value;
      assert Values(matches)[..i + 1][..i] == Values(matches)[..i];
      if m.status == Open && m.player1.Some? && m.player2.Some? {
        ret := ret + [m];
      }
      i := i + 1;
    }
    assert Values(matches)[..i] == Values(matches);
  }

  /** The listed matches are exactly the playable ones, each as often as it
      occurs, so a pending match is never listed. */
  lemma {:induction false} PlayableMatchesCharacterized(ms: seq<Match>)
    ensures forall m :: m in PlayableMatches(ms) <==> m in ms && Playable(m)
    ensures forall m :: m in PlayableMatches(ms) ==> m.status != Pending
    ensures forall m :: multiset(PlayableMatches(ms))[m] == (if Playable(m) then multiset(ms)[m] else 0)
  {
    if ms != [] {
      var init := ms[..|ms| - 1];
      PlayableMatchesCharacterized(init);
      assert ms == init + [ms[|ms| - 1]];
    }
  }

  // ---------------------------------------------------------------------
  // ParticipantAutocompleteList
  // ---------------------------------------------------------------------

  /** `LevenshteinDistance`: a participant with its distance to the input. */
  datatype Scored = Scored(distance: nat, participant: Participant)

  /** The key `OrderBy(d => d.Distance)` sorts on. */
  predicate DistanceLe(a: Scored, b: Scored) {
    a.distance <= b.distance
  }

  lemma DistanceLeIsTotalPreorder()
    ensures TotalPreorder(DistanceLe)
  {
  }

  /** Each participant paired with its distance to `input`. */
  function Scores(input: string, ps: seq<Participant>): (r: seq<Scored>)
    ensures |r| == |ps|
    ensures forall i :: 0 <= i < |ps| ==> r[i] == Scored(Distance(input, ps[i].name), ps[i])
  {
    seq(|ps|, i requires 0 <= i < |ps| => Scored(Distance(input, ps[i].name), ps[i]))
  }

  /** `Select(d => d.Participant)`. */
  function ParticipantsOf(s: seq<Scored>): (r: seq<Participant>)
    ensures |r| == |s|
    ensures forall i :: 0 <= i < |s| ==> r[i] == s[i].participant
  {
    seq(|s|, i requires 0 <= i < |s| => s[i].participant)
  }

  /** The ranking for a non-blank input: the participants stably sorted by
      their distance to it. */
  function RankByDistance(input: string, ps: seq<Participant>): seq<Participant> {
    ParticipantsOf(SortBy(Scores(input, ps), DistanceLe))
  }

  /** `ParticipantAutocompleteList`: the alphabetical list for a blank
      input, otherwise that list ranked by distance to the input. */
  method ParticipantAutocompleteList(input: Option<string>, tournament: TournamentView)
    returns (r: seq<Participant>)
    ensures IsNullOrWhiteSpace(input) ==> r == tournament.alphabeticalParticipants
    ensures !IsNullOrWhiteSpace(input) ==>
              r == RankByDistance(input.value, tournament.alphabeticalParticipants)
  {
    if IsNullOrWhiteSpace(input) {
      return tournament.alphabeticalParticipants;
    }
    var alphabetical := tournament.alphabeticalParticipants;
    var distances := new Scored[|alphabetical|];
    var i := 0;
    while i < |alphabetical|
      invariant 0 <= i <= |alphabetical|
      invariant forall k :: 0 <= k < i ==> distances[k] == Scores(input.value, alphabetical)[k]
    {
      distances[i] := Scored(Distance(input.value, alphabetical[i].name), alphabetical[i]);
      i := i + 1;
    }
    assert distances[..] == Scores(input.value, alphabetical);
    r := ParticipantsOf(SortBy(distances[..], DistanceLe));
  }

  /** The elements of `ps` at distance `d` from `input`, in order. */
  function AtDistance(input: string, ps: seq<Participant>, d: nat): seq<Participant> {
    if ps == [] then []
    else (if Distance(input, ps[0].name) == d then [ps[0]] else []) + AtDistance(input, ps[1..], d)
  }

  lemma {:induction false} AtDistanceCount(input: string, ps: seq<Participant>, d: nat, q: Participant)
    ensures multiset(AtDistance(input, ps, d))[q] == if Distance(input, q.name) == d then multiset(ps)[q] else 0
  {
    if ps != [] {
      AtDistanceCount(input, ps[1..], d, q);
      assert ps == [ps[0]] + ps[1..];
    }
  }

  /** Each element carries its own distance to `input`. */
  ghost predicate WellScored(input: string, s: seq<Scored>) {
    forall x :: x in s ==> x.distance == Distance(input, x.participant.name)
  }

  lemma ScoresWellScored(input: string, ps: seq<Participant>)
    ensures WellScored(input, Scores(input, ps))
  {
    var s := Scores(input, ps);
    forall x | x in s
      ensures x.distance == Distance(input, x.participant.name)
    {
      var i :| 0 <= i < |s| && s[i] == x;
    }
  }

  lemma SortedWellScored(input: string, s: seq<Scored>)
    requires WellScored(input, s)
    ensures WellScored(input, SortBy(s, DistanceLe))
  {
    var sorted := SortBy(s, DistanceLe);
    forall x | x in sorted
      ensures x.distance == Distance(input, x.participant.name)
    {
      assert x in multiset(sorted);
    }
  }

  lemma ParticipantsOfAppend(a: seq<Scored>, b: seq<Scored>)
    ensures ParticipantsOf(a + b) == ParticipantsOf(a) + ParticipantsOf(b)
  {
  }

  lemma {:induction false} EquivalentsAtDistance(input: string, s: seq<Scored>, k: Scored)
    requires WellScored(input, s)
    ensures ParticipantsOf(Equivalents(s, k, DistanceLe)) == AtDistance(input, ParticipantsOf(s), k.distance)
  {
    if s != [] {
      var rest := s[1..];
      assert WellScored(input, rest) by {
        forall x | x in rest
          ensures x.distance == Distance(input, x.participant.name)
        {
          assert x in s;
        }
      }
      EquivalentsAtDistance(input, rest, k);
      var ps := ParticipantsOf(s);
      assert ps[1..] == ParticipantsOf(rest);
      assert s[0] in s;
      var head := if Equivalent(s[0], k, DistanceLe) then [s[0]] else [];
      assert Equivalents(s, k, DistanceLe) == head + Equivalents(rest, k, DistanceLe);
      ParticipantsOfAppend(head, Equivalents(rest, k, DistanceLe));
      assert ParticipantsOf(head) == if Distance(input, ps[0].name) == k.distance then [ps[0]] else [];
    }
  }

  /** The ranking is ordered by non-decreasing distance to the input. */
  lemma RankByDistanceSorted(input: string, ps: seq<Participant>)
    ensures |RankByDistance(input, ps)| == |ps|
    ensures forall i, j :: 0 <= i < j < |ps| ==>
              Distance(input, RankByDistance(input, ps)[i].name) <= Distance(input, RankByDistance(input, ps)[j].name)
  {
    var scores := Scores(input, ps);
    var sorted := SortBy(scores, DistanceLe);
    var r := RankByDistance(input, ps);
    DistanceLeIsTotalPreorder();
    SortBySorted(scores, DistanceLe);
    ScoresWellScored(input, ps);
    SortedWellScored(input, scores);
    forall i, j | 0 <= i < j < |ps|
      ensures Distance(input, r[i].name) <= Distance(input, r[j].name)
    {
      assert sorted[i] in sorted && sorted[j] in sorted;
      assert DistanceLe(sorted[i], sorted[j]);
    }
  }

  /** Ties keep their order: the participants at any one distance appear in
      the ranking in the order they had in the input list. */
  lemma RankByDistanceStable(input: string, ps: seq<Participant>, d: nat)
    ensures AtDistance(input, RankByDistance(input, ps), d) == AtDistance(input, ps, d)
  {
    var scores := Scores(input, ps);
    var sorted := SortBy(scores, DistanceLe);
    DistanceLeIsTotalPreorder();
    ScoresWellScored(input, ps);
    SortedWellScored(input, scores);
    assert ParticipantsOf(scores) == ps;
    var k := Scored(d, Participant(0, ""));
    SortByStable(scores, k, DistanceLe);
    EquivalentsAtDistance(input, scores, k);
    EquivalentsAtDistance(input, sorted, k);
  }

  /** Nothing is added or dropped: the ranking is a permutation of the
      input list. */
  lemma RankByDistancePermutation(input: string, ps: seq<Participant>)
    ensures multiset(RankByDistance(input, ps)) == multiset(ps)
  {
    var r := RankByDistance(input, ps);
    forall q
      ensures multiset(r)[q] == multiset(ps)[q]
    {
      var d := Distance(input, q.name);
      RankByDistanceStable(input, ps, d);
      AtDistanceCount(input, r, d, q);
      AtDistanceCount(input, ps, d, q);
    }
  }

  /** A participant whose name is exactly the input heads the ranking. */
  lemma ExactNameRankedFirst(input: string, ps: seq<Participant>, p: Participant)
    requires p in ps && p.name == input
    ensures RankByDistance(input, ps)[0].name == input
  {
    RankByDistanceSorted(input, ps);
    RankByDistancePermutation(input, ps);
    var r := RankByDistance(input, ps);
    assert p in multiset(r);
    var j :| 0 <= j < |r| && r[j] == p;
    assert Distance(input, r[0].name) <= Distance(input, r[j].name);
  }

  // ---------------------------------------------------------------------
  // FindParticipant
  // ---------------------------------------------------------------------

  /** `p`'s name, lower-cased, is `lower`. */
  predicate NameMatches(p: Participant, lower: string) {
    ToLower(p.name) == lower
  }

  /** `FindParticipant`: null for a null name; otherwise the first
      participant, in map order, whose name equals the name ignoring case,
      or null when there is none. */
  method FindParticipant(name: Option<string>, tournament: TournamentView) returns (r: Option<Participant>)
    ensures name.None? ==> r.None?
    ensures name.Some? && r.None? ==>
              forall k :: 0 <= k < |tournament.participants| ==>
                !NameMatches(tournament.participants[k].value, ToLower(name.value))
    ensures r.Some? ==> name.Some?
    ensures r.Some? && name.Some? ==>
              exists i :: 0 <= i < |tournament.participants|
                && tournament.participants[i].value == r.value
                && NameMatches(r.value, ToLower(name.value))
                && forall k :: 0 <= k < i ==> !NameMatches(tournament.participants[k].value, ToLower(name.value))
  {
    if name.None? {
      return None;
    }
    var lowerInput := ToLower(name.value);
    var participants := tournament.participants;
    var i := 0;
    while i < |participants|
      invariant 0 <= i <= |participants|
      invariant forall k :: 0 <= k < i ==> !NameMatches(participants[k].value, lowerInput)
    {
      if ToLower(participants[i].value.name) == lowerInput {
        return Some(participants[i].value);
      }
      i := i + 1;
    }
    return None;
  }
}
