/** The REST host's canonical view (Scorebini/Data/TournamentContext.cs):
    the raw tournament aggregate, match-status mapping, resolution of a
    match's players through the participant dictionary, and the view
    constructor that fills the id-keyed dictionaries and the name-sorted
    participant list. Ids are `long`s, as this file reads them. */
module TournamentViews {
  import opened Base
  import opened Text
  import opened Sorting
  import opened Dictionaries

  /** A participant as the host sends it (ChallongeParticipant). */
  datatype RawParticipant = RawParticipant(id: Option<int64>, name: string)

  /** A match as the host sends it (ChallongeMatch). */
  datatype RawMatch = RawMatch(
    id: Option<int64>,
    player1Id: Option<int64>,
    player2Id: Option<int64>,
    state: Option<string>,
    round: Option<int64>,
    identifier: Option<string>)

  /** The raw aggregate fetched for one tournament. */
  datatype TournamentContext = TournamentContext(
    tournamentId: Option<string>,
    participants: Option<seq<RawParticipant>>,
    matches: Option<seq<RawMatch>>,
    requestErrors: seq<string>)

  /** `TournamentContext.IsValid`: both lists were fetched. */
  predicate IsValid(ctx: TournamentContext)
    ensures IsValid(ctx) <==> ctx.participants != None && ctx.matches != None
  {
    ctx.participants.Some? && ctx.matches.Some?
  }

  datatype MatchStatus = Unknown | Pending | Open | Complete

  /** `TournamentMatch.StatusFromString`: the host's three state words,
      matched case-sensitively; anything else (null included) is Unknown. */
  function StatusFromString(status: Option<string>): (r: MatchStatus)
    ensures r == Pending <==> status == Some("pending")
    ensures r == Open <==> status == Some("open")
    ensures r == Complete <==> status == Some("complete")
  {
    match status
    case Some("pending") => Pending
    case Some("open") => Open
    case Some("complete") => Complete
    case _ => Unknown
  }

  /** `TournamentParticipant`: a participant with a valued id. */
  datatype Participant = Participant(id: int64, name: string)

  /** `TournamentMatch`: the raw match, its resolved players and its status. */
  datatype Match = Match(
    model: RawMatch,
    player1: Option<Participant>,
    player2: Option<Participant>,
    status: MatchStatus)

  /** The player a raw id resolves to: none for an unset id or an id the
      participant dictionary does not hold. */
  function ResolvePlayer(participants: Dictionary<Participant>, id: Option<int64>): (r: Option<Participant>)
    ensures r.Some? <==> id.Some? && id.value in Keys(participants)
    ensures r.Some? ==> TryGetValue(participants, id.value) == r
  {
    if id.Some? then TryGetValue(participants, id.value) else None
  }

  /** `TournamentMatch.Create`: keeps the raw match, maps its state, and
      sets each player only when its id is set and known to the view. */
  function CreateMatch(participants: Dictionary<Participant>, model: RawMatch): (m: Match)
    ensures m.model == model && m.status == StatusFromString(model.state)
    ensures m.player1.Some? <==> model.player1Id.Some? && model.player1Id.value in Keys(participants)
    ensures m.player1.Some? ==> TryGetValue(participants, model.player1Id.value) == m.player1
    ensures m.player2.Some? <==> model.player2Id.Some? && model.player2Id.value in Keys(participants)
    ensures m.player2.Some? ==> TryGetValue(participants, model.player2Id.value) == m.player2
  {
    Match(model,
          ResolvePlayer(participants, model.player1Id),
          ResolvePlayer(participants, model.player2Id),
          StatusFromString(model.state))
  }

  /** `TournamentView`: built once from a context, read-only afterwards. */
  datatype TournamentView = TournamentView(
    model: TournamentContext,
    participants: Dictionary<Participant>,
    matches: Dictionary<Match>,
    alphabeticalParticipants: seq<Participant>)

  /** The exception the constructor lets escape: `Dictionary.Add` on an id
      that is already present. */
  datatype ViewError = DuplicateParticipantId(participantId: int64) | DuplicateMatchId(matchId: int64)

  /** The entries the constructor adds for `ps`, in order: one per raw
      participant whose id has a value. */
  function ParticipantEntries(ps: seq<RawParticipant>): Dictionary<Participant> {
    if ps == [] then []
    else
      var last := ps[|ps| - 1];
      ParticipantEntries(ps[..|ps| - 1])
        + (if last.id.Some? then [Entry(last.id.value, Participant(last.id.value, last.name))] else [])
  }

  /** The entries the constructor adds for `ms`, in order: one per raw match
      whose id has a value, resolved against `participants`. */
  function MatchEntries(participants: Dictionary<Participant>, ms: seq<RawMatch>): Dictionary<Match> {
    if ms == [] then []
    else
      var last := ms[|ms| - 1];
      MatchEntries(participants, ms[..|ms| - 1])
        + (if last.id.Some? then [Entry(last.id.value, CreateMatch(participants, last))] else [])
  }

  /** The key `OrderBy(p => p.Name)` sorts on. */
  predicate NameLe(a: Participant, b: Participant) {
    TextLe(a.name, b.name)
  }

  lemma NameLeIsTotalPreorder()
    ensures TotalPreorder(NameLe)
  {
    forall a: Participant, b: Participant
      ensures NameLe(a, b) || NameLe(b, a)
    {
      TextLeTotal(a.name, b.name);
    }
    forall a: Participant, b: Participant, c: Participant | NameLe(a, b) && NameLe(b, c)
      ensures NameLe(a, c)
    {
      TextLeTransitive(a.name, b.name, c.name);
    }
  }

  /** `Participants.Values.OrderBy(p => p.Name).ToList()`. */
  function Alphabetical(participants: Dictionary<Participant>): seq<Participant> {
    SortBy(Values(participants), NameLe)
  }

  /** The constructor `TournamentView(TournamentContext)`. With no
      participant list everything stays empty; with no match list the match
      dictionary stays empty; a repeated id is the exception `Add` raises. */
  method NewView(ctx: TournamentContext) returns (r: Result<TournamentView, ViewError>)
    ensures ctx.participants.None? ==> r == Success(TournamentView(ctx, [], [], []))
    ensures ctx.participants.Some? ==>
      var entries := ParticipantEntries(ctx.participants.value);
      && (r.Success? <==>
            DistinctKeys(entries)
            && (ctx.matches.Some? ==> DistinctKeys(MatchEntries(entries, ctx.matches.value))))
      && (r.Failure? ==> (r.error.DuplicateParticipantId? <==> !DistinctKeys(entries)))
      && (r.Success? ==> r.value == TournamentView(
            ctx,
            entries,
            if ctx.matches.None? then [] else MatchEntries(entries, ctx.matches.value),
            Alphabetical(entries)))
  {
    if ctx.participants.None? {
      return Success(TournamentView(ctx, [], [], []));
    }
    var ps := ctx.participants.value;
    var participants: Dictionary<Participant> := [];
    var i := 0;
    while i < |ps|
      invariant 0 <= i <= |ps|
      invariant participants == ParticipantEntries(ps[..i])
      invariant DistinctKeys(participants)
    {
      var raw := ps[i];
      assert ps[..i + 1][..i] == ps[..i];
      if raw.id.Some? {
        var added := Add(participants, raw.id.value, Participant(raw.id.value, raw.name));
        if added.None? {
          AddFailsOnDuplicate(participants, raw.id.value, Participant(raw.id.value, raw.name));
          ParticipantEntriesAppend(ps[..i + 1], ps[i + 1..]);
          assert ps[..i + 1] + ps[i + 1..] == ps;
          DuplicatePersists(ParticipantEntries(ps[..i + 1]), ParticipantEntries(ps[i + 1..]));
          return Failure(DuplicateParticipantId(raw.id.value));
        }
        participants := added.value;
      }
      i := i + 1;
    }
    assert ps[..i] == ps;
    var alphabetical := Alphabetical(participants);
    if ctx.matches.None? {
      return Success(TournamentView(ctx, participants, [], alphabetical));
    }
    var ms := ctx.matches.value;
    var matches: Dictionary<Match> := [];
    var j := 0;
    while j < |ms|
      invariant 0 <= j <= |ms|
      invariant matches == MatchEntries(participants, ms[..j])
      invariant DistinctKeys(matches)
    {
      var raw := ms[j];
      assert ms[..j + 1][..j] == ms[..j];
      if raw.id.Some? {
        var m := CreateMatch(participants, raw);
        var added := Add(matches, raw.id.value, m);
        if added.None? {
          AddFailsOnDuplicate(matches, raw.id.value, m);
          MatchEntriesAppend(participants, ms[..j + 1], ms[j + 1..]);
          assert ms[..j + 1] + ms[j + 1..] == ms;
          DuplicatePersists(MatchEntries(participants, ms[..j + 1]), MatchEntries(participants, ms[j + 1..]));
          return Failure(DuplicateMatchId(raw.id.value));
        }
        matches := added.value;
      }
      j := j + 1;
    }
    assert ms[..j] == ms;
    return Success(TournamentView(ctx, participants, matches, alphabetical));
  }

  lemma {:induction false} ParticipantEntriesAppend(a: seq<RawParticipant>, b: seq<RawParticipant>)
    ensures ParticipantEntries(a + b) == ParticipantEntries(a) + ParticipantEntries(b)
  {
    if b == [] {
      assert a + b == a;
    } else {
      assert (a + b)[..|a + b| - 1] == a + b[..|b| - 1];
      ParticipantEntriesAppend(a, b[..|b| - 1]);
    }
  }

  lemma {:induction false} MatchEntriesAppend(participants: Dictionary<Participant>, a: seq<RawMatch>, b: seq<RawMatch>)
    ensures MatchEntries(participants, a + b) == MatchEntries(participants, a) + MatchEntries(participants, b)
  {
    if b == [] {
      assert a + b == a;
    } else {
      assert (a + b)[..|a + b| - 1] == a + b[..|b| - 1];
      MatchEntriesAppend(participants, a, b[..|b| - 1]);
    }
  }

  /** An entry is added exactly for a raw participant with a valued id. */
  lemma {:induction false} ParticipantEntriesMembers(ps: seq<RawParticipant>)
    ensures forall e :: e in ParticipantEntries(ps) <==>
              exists p :: p in ps && p.id.Some? && e == Entry(p.id.value, Participant(p.id.value, p.name))
  {
    if ps != [] {
      var init := ps[..|ps| - 1];
      var last := ps[|ps| - 1];
      ParticipantEntriesMembers(init);
      assert ps == init + [last];
      forall e
        ensures e in ParticipantEntries(ps) <==>
                exists p :: p in ps && p.id.Some? && e == Entry(p.id.value, Participant(p.id.value, p.name))
      {
        if exists p :: p in ps && p.id.Some? && e == Entry(p.id.value, Participant(p.id.value, p.name)) {
          var p :| p in ps && p.id.Some? && e == Entry(p.id.value, Participant(p.id.value, p.name));
          if p != last {
            assert p in init;
          }
        }
      }
    }
  }

  /** One entry is added per raw participant with a valued id. */
  lemma {:induction false} ParticipantEntriesCount(ps: seq<RawParticipant>)
    ensures |ParticipantEntries(ps)| == |set k | 0 <= k < |ps| && ps[k].id.Some?|
  {
    if ps != [] {
      var init := ps[..|ps| - 1];
      ParticipantEntriesCount(init);
      var valued := set k | 0 <= k < |ps| && ps[k].id.Some?;
      var initValued := set k | 0 <= k < |init| && init[k].id.Some?;
      if ps[|ps| - 1].id.Some? {
        assert valued == initValued + {|ps| - 1};
      } else {
        assert valued == initValued;
      }
    }
  }

  /** The participant map holds exactly one entry per raw participant with
      a valued id, keyed by that id, and nothing else. */
  lemma ParticipantEntriesFromRaw(ps: seq<RawParticipant>)
    ensures forall e :: e in ParticipantEntries(ps) <==>
              exists p :: p in ps && p.id.Some? && e == Entry(p.id.value, Participant(p.id.value, p.name))
    ensures |ParticipantEntries(ps)| == |set k | 0 <= k < |ps| && ps[k].id.Some?|
  {
    ParticipantEntriesMembers(ps);
    ParticipantEntriesCount(ps);
  }

  /** An entry is added exactly for a raw match with a valued id. */
  lemma {:induction false} MatchEntriesMembers(participants: Dictionary<Participant>, ms: seq<RawMatch>)
    ensures forall e :: e in MatchEntries(participants, ms) <==>
              exists m :: m in ms && m.id.Some? && e == Entry(m.id.value, CreateMatch(participants, m))
  {
    if ms != [] {
      var init := ms[..|ms| - 1];
      var last := ms[|ms| - 1];
      MatchEntriesMembers(participants, init);
      assert ms == init + [last];
      forall e
        ensures e in MatchEntries(participants, ms) <==>
                exists m :: m in ms && m.id.Some? && e == Entry(m.id.value, CreateMatch(participants, m))
      {
        if exists m :: m in ms && m.id.Some? && e == Entry(m.id.value, CreateMatch(participants, m)) {
          var m :| m in ms && m.id.Some? && e == Entry(m.id.value, CreateMatch(participants, m));
          if m != last {
            assert m in init;
          }
        }
      }
    }
  }

  /** One entry is added per raw match with a valued id. */
  lemma {:induction false} MatchEntriesCount(participants: Dictionary<Participant>, ms: seq<RawMatch>)
    ensures |MatchEntries(participants, ms)| == |set k | 0 <= k < |ms| && ms[k].id.Some?|
  {
    if ms != [] {
      var init := ms[..|ms| - 1];
      MatchEntriesCount(participants, init);
      var valued := set k | 0 <= k < |ms| && ms[k].id.Some?;
      var initValued := set k | 0 <= k < |init| && init[k].id.Some?;
      if ms[|ms| - 1].id.Some? {
        assert valued == initValued + {|ms| - 1};
      } else {
        assert valued == initValued;
      }
    }
  }

  /** The match map holds exactly one entry per raw match with a valued id,
      keyed by that id and resolved against the participant map. */
  lemma MatchEntriesFromRaw(participants: Dictionary<Participant>, ms: seq<RawMatch>)
    ensures forall e :: e in MatchEntries(participants, ms) <==>
              exists m :: m in ms && m.id.Some? && e == Entry(m.id.value, CreateMatch(participants, m))
    ensures |MatchEntries(participants, ms)| == |set k | 0 <= k < |ms| && ms[k].id.Some?|
  {
    MatchEntriesMembers(participants, ms);
    MatchEntriesCount(participants, ms);
  }

  /** In a view that was built, looking up a raw participant's id finds
      that participant. */
  lemma ParticipantLookup(ps: seq<RawParticipant>, p: RawParticipant)
    requires DistinctKeys(ParticipantEntries(ps))
    requires p in ps && p.id.Some?
    ensures TryGetValue(ParticipantEntries(ps), p.id.value) == Some(Participant(p.id.value, p.name))
  {
    var d := ParticipantEntries(ps);
    ParticipantEntriesFromRaw(ps);
    var e := Entry(p.id.value, Participant(p.id.value, p.name));
    assert e in d;
    var i :| 0 <= i < |d| && d[i] == e;
    TryGetValueFinds(d, i);
  }

  /** `AlphabeticalParticipants` is the map's values, reordered so that
      names never decrease, with equal names in map order. */
  lemma AlphabeticalIsSortedPermutation(participants: Dictionary<Participant>)
    ensures SortedBy(Alphabetical(participants), NameLe)
    ensures multiset(Alphabetical(participants)) == multiset(Values(participants))
    ensures forall k :: Equivalents(Alphabetical(participants), k, NameLe)
                     == Equivalents(Values(participants), k, NameLe)
  {
    NameLeIsTotalPreorder();
    SortBySorted(Values(participants), NameLe);
    forall k
      ensures Equivalents(Alphabetical(participants), k, NameLe) == Equivalents(Values(participants), k, NameLe)
    {
      SortByStable(Values(participants), k, NameLe);
    }
  }
}
