/** `MatchOrParticipantId` (Scorebini/Data/MiniData.cs): the key of an entry
    in the player-select dropdown, tagging a `long` id as a match's or a
    participant's. */
module MatchOrParticipantIds {
  import opened Base
  import SmashggMatches

  datatype MatchOrParticipant = Match | Participant

  datatype MatchOrParticipantId = MatchOrParticipantId(kind: MatchOrParticipant, id: int64)

  /** The parameterless constructor. */
  function Default(): (r: MatchOrParticipantId)
    ensures r.kind == Match && r.id == 0
  {
    MatchOrParticipantId(Match, 0)
  }

  /** The constructor from JSON text, given what the deserialiser made of
      it: a missing value falls back to the default's fields. */
  function FromParsed(parsed: Option<MatchOrParticipantId>): (r: MatchOrParticipantId)
    ensures parsed.Some? ==> r == parsed.value
    ensures parsed.None? ==> r == Default()
  {
    if parsed.Some? then parsed.value else Default()
  }

  /** The constructor from a match: its id, tagged as a match. */
  function FromMatch(m: SmashggMatches.SmashMatch): (r: MatchOrParticipantId)
    ensures r.kind == Match && r.id == m.model.id
  {
    MatchOrParticipantId(Match, m.model.id)
  }

  /** The constructor from a participant: its id, tagged as a participant. */
  function FromParticipant(p: SmashggMatches.SmashParticipant): (r: MatchOrParticipantId)
    ensures r.kind == Participant && r.id == p.model.id
  {
    MatchOrParticipantId(Participant, p.model.id)
  }

  /** `Equals(MatchOrParticipantId)` and `operator ==`. */
  predicate Equals(a: MatchOrParticipantId, b: MatchOrParticipantId)
    ensures Equals(a, b) <==> a == b
  {
    a.id == b.id && a.kind == b.kind
  }

  /** `operator !=`. */
  predicate NotEquals(a: MatchOrParticipantId, b: MatchOrParticipantId)
    ensures NotEquals(a, b) <==> !Equals(a, b)
  {
    !(Equals(a, b))
  }

  /** The argument of `Equals(object)`. */
  datatype Object = BoxedId(value: MatchOrParticipantId) | OtherObject

  /** `Equals(object)`: false for anything that is not such an id. */
  predicate EqualsObject(a: MatchOrParticipantId, obj: Object)
    ensures EqualsObject(a, obj) <==> obj == BoxedId(a)
  {
    match obj
    case BoxedId(b) => Equals(a, b)
    case OtherObject => false
  }

  /** `GetHashCode()`, as the pair `HashCode.Combine` mixes; the mixer
      itself is left out. */
  function HashInputs(a: MatchOrParticipantId): (r: (MatchOrParticipant, int64))
    ensures r.0 == a.kind && r.1 == a.id
  {
    (a.kind, a.id)
  }

  /** Equal ids hash alike, and the hash inputs tell unequal ids apart. */
  lemma HashAgreesWithEquals(a: MatchOrParticipantId, b: MatchOrParticipantId)
    ensures Equals(a, b) <==> HashInputs(a) == HashInputs(b)
  {
  }

  /** A match and a participant never share a key, even with the same id. */
  lemma MatchNeverEqualsParticipant(m: SmashggMatches.SmashMatch, p: SmashggMatches.SmashParticipant)
    ensures !Equals(FromMatch(m), FromParticipant(p))
  {
  }
}
