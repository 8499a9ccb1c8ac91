/** The graph host's match (Scorebini/Data/SmashggData.cs): a raw set whose
    first two slots are resolved through the participant dictionary, and
    the status and round projections the scoreboard reads. */
module SmashggMatches {
  import opened Base
  import opened Dictionaries
  import opened TournamentViews
  import opened SetStates

  /** `Entrant`: a competitor as the graph host sends it. */
  datatype Entrant = Entrant(id: int64, name: Option<string>)

  /** `SetSlot`: one side of a set, possibly without an entrant yet. */
  datatype SetSlot = SetSlot(entrant: Option<Entrant>)

  /** `Set`: the raw match. `slots` is a nullable list of nullable slots. */
  datatype Set = Set(
    id: int64,
    fullRoundText: Option<string>,
    round: int64,
    slots: Option<seq<Option<SetSlot>>>,
    state: int32)

  /** The graph host's `TournamentParticipant`, wrapping its entrant. */
  datatype SmashParticipant = SmashParticipant(model: Entrant)

  /** The graph host's `TournamentMatch`. */
  datatype SmashMatch = SmashMatch(model: Set, player1: Option<SmashParticipant>, player2: Option<SmashParticipant>)

  /** The entrant sitting in `slot`, if the slot list reaches that far and
      both the slot and its entrant are set. */
  function SlotEntrant(model: Set, slot: nat): (r: Option<Entrant>)
    ensures r.Some? <==>
              model.slots.Some? && slot < |model.slots.value|
              && model.slots.value[slot].Some? && model.slots.value[slot].value.entrant.Some?
    ensures r.Some? ==> r == model.slots.value[slot].value.entrant
  {
    if model.slots.None? then None
    else if slot < |model.slots.value| then
      var s := model.slots.value[slot];
      if s.Some? then s.value.entrant else None
    else None
  }

  /** `GetValidParticipant`: the participant the entrant in `slot` is keyed
      under, or null when the slot list is null or too short, the slot or
      its entrant is null, or the entrant is not a known participant. */
  function GetValidParticipant(participants: Dictionary<SmashParticipant>, model: Set, slot: nat)
    : (r: Option<SmashParticipant>)
    ensures r.Some? <==> SlotEntrant(model, slot).Some? && SlotEntrant(model, slot).value.id in Keys(participants)
    ensures r.Some? ==> TryGetValue(participants, SlotEntrant(model, slot).value.id) == r
  {
    if model.slots.None? then None
    else if |model.slots.value| > slot then
      var s := model.slots.value[slot];
      var entrant := if s.Some? then s.value.entrant else None;
      if entrant.Some? then TryGetValue(participants, entrant.value.id) else None
    else None
  }

  /** `TournamentMatch.Create`: player 1 from slot 0, player 2 from slot 1. */
  function CreateMatch(participants: Dictionary<SmashParticipant>, model: Set): (m: SmashMatch)
    ensures m.model == model
    ensures m.player1 == GetValidParticipant(participants, model, 0)
    ensures m.player2 == GetValidParticipant(participants, model, 1)
  {
    SmashMatch(model, GetValidParticipant(participants, model, 0), GetValidParticipant(participants, model, 1))
  }

  /** `Status`: the raw state read as a `SetState`. */
  function Status(m: SmashMatch): (r: MatchStatus)
    ensures r == Unknown <==> m.model.state !in {1, 2, 3}
    ensures r == Pending <==> m.model.state == Code(PendingSet)
    ensures r == Open <==> m.model.state == Code(OpenSet)
    ensures r == Complete <==> m.model.state == Code(CompleteSet)
  {
    ToMatchStatus(m.model.state)
  }

  /** `RoundName`: the round text, or "INVALID" when it is null. */
  function RoundName(m: SmashMatch): (r: string)
    ensures m.model.fullRoundText.Some? ==> r == m.model.fullRoundText.value
    ensures m.model.fullRoundText.None? ==> r == "INVALID"
  {
    if m.model.fullRoundText.Some? then m.model.fullRoundText.value else "INVALID"
  }

  /** `RoundNumber`: the raw round. */
  function RoundNumber(m: SmashMatch): (r: int64)
    ensures r == m.model.round
  {
    m.model.round
  }

  /** Slots after the second play no part: appending more slots to a set
      that already has two leaves both players unchanged. */
  lemma ExtraSlotsIgnored(participants: Dictionary<SmashParticipant>, model: Set, extra: seq<Option<SetSlot>>)
    requires model.slots.Some? && |model.slots.value| >= 2
    ensures var longer := model.(slots := Some(model.slots.value + extra));
            CreateMatch(participants, longer).player1 == CreateMatch(participants, model).player1
            && CreateMatch(participants, longer).player2 == CreateMatch(participants, model).player2
  {
    var longer := model.(slots := Some(model.slots.value + extra));
    assert longer.slots.value[0] == model.slots.value[0];
    assert longer.slots.value[1] == model.slots.value[1];
  }

  /** A set without slots, or with only one, has no second player. */
  lemma ShortSlotsLeaveSecondPlayerEmpty(participants: Dictionary<SmashParticipant>, model: Set)
    requires model.slots.None? || |model.slots.value| < 2
    ensures CreateMatch(participants, model).player2.None?
  {
  }

  /** A resolved player is the participant stored under its entrant's id
      when the dictionary was built from distinct keys. */
  lemma ResolvedPlayerIsStored(participants: Dictionary<SmashParticipant>, model: Set, slot: nat, i: nat)
    requires DistinctKeys(participants) && i < |participants|
    requires SlotEntrant(model, slot).Some? && SlotEntrant(model, slot).value.id == participants[i].key
    ensures GetValidParticipant(participants, model, slot) == Some(participants[i].value)
  {
    TryGetValueFinds(participants, i);
  }
}
