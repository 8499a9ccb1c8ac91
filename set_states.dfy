/** The graph host's set states (Scorebini/Data/SmashGraphQLQueries.cs):
    the integer codes of `SetState` and their mapping onto `MatchStatus`. */
module SetStates {
  import opened Base
  import opened TournamentViews

  /** The named members of `SetState`. */
  datatype SetState = UnknownSet | PendingSet | OpenSet | CompleteSet

  /** The integer each named member stands for. */
  function Code(s: SetState): (c: int32)
    ensures 0 <= c <= 3
  {
    match s
    case UnknownSet => 0
    case PendingSet => 1
    case OpenSet => 2
    case CompleteSet => 3
  }

  /** Distinct members have distinct codes. */
  lemma CodeInjective(s: SetState, t: SetState)
    requires Code(s) == Code(t)
    ensures s == t
  {
  }

  /** `ToMatchStatus` applied to `(SetState)state`: a raw code names a
      member only when it is 0 to 3, and every other code falls to the
      default arm. */
  function ToMatchStatus(state: int32): (r: MatchStatus)
    ensures r == Unknown <==> state != 1 && state != 2 && state != 3
  {
    if state == 1 then Pending
    else if state == 2 then Open
    else if state == 3 then Complete
    else Unknown
  }

  /** Each named member maps to the match status of the same name. */
  lemma ToMatchStatusOfNamed()
    ensures ToMatchStatus(Code(UnknownSet)) == Unknown
    ensures ToMatchStatus(Code(PendingSet)) == Pending
    ensures ToMatchStatus(Code(OpenSet)) == Open
    ensures ToMatchStatus(Code(CompleteSet)) == Complete
  {
  }

  /** Every status but Unknown comes from exactly one code, so the mapping
      loses nothing for the three meaningful states. */
  lemma ToMatchStatusInjectiveOnKnown(a: int32, b: int32)
    requires ToMatchStatus(a) == ToMatchStatus(b) != Unknown
    ensures a == b
  {
  }
}
