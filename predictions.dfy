/** The prediction side-service's pure rules
    (ScorebiniTwitchApi/Controllers/TwitchPredictionController.cs): the
    status words Twitch uses, the conversion of Twitch's prediction record
    into the shared response record, and the normalisation a create request
    goes through before it is forwarded to Twitch. */
module Predictions {
  import opened Base

  // ---------------------------------------------------------------------
  // Status words
  // ---------------------------------------------------------------------

  /** `Shared.Responses.PredictionStatus`. */
  datatype PredictionStatus = Active | Canceled | Locked | Resolved

  /** `Shared.Requests.EndPredictionStatus`. */
  datatype EndPredictionStatus = EndResolved | EndCanceled | EndLocked

  /** `ResponseFromString`: Twitch's upper-case status words; any other word
      raises an exception carrying it. */
  function ResponseFromString(s: string): (r: Result<PredictionStatus, string>)
    ensures r.Success? <==> s in {"ACTIVE", "CANCELED", "LOCKED", "RESOLVED"}
    ensures r.Failure? ==> r.error == "Unexpected status string '" + s + "'"
    ensures s == "ACTIVE" ==> r == Success(Active)
    ensures s == "CANCELED" ==> r == Success(Canceled)
    ensures s == "LOCKED" ==> r == Success(Locked)
    ensures s == "RESOLVED" ==> r == Success(Resolved)
  {
    match s
    case "ACTIVE" => Success(Active)
    case "CANCELED" => Success(Canceled)
    case "LOCKED" => Success(Locked)
    case "RESOLVED" => Success(Resolved)
    case _ => Failure("Unexpected status string '" + s + "'")
  }

  /** `StatusToString`: the word Twitch expects for ending a prediction. */
  function StatusToString(status: EndPredictionStatus): (r: string)
    ensures r in {"RESOLVED", "CANCELED", "LOCKED"}
  {
    match status
    case EndResolved => "RESOLVED"
    case EndCanceled => "CANCELED"
    case EndLocked => "LOCKED"
  }

  /** The response status named like an end status. */
  function SameNamed(status: EndPredictionStatus): PredictionStatus {
    match status
    case EndResolved => Resolved
    case EndCanceled => Canceled
    case EndLocked => Locked
  }

  /** Reading back the word written for an end status gives the response
      status of the same name, never Active. */
  lemma StatusWordRoundTrip(status: EndPredictionStatus)
    ensures ResponseFromString(StatusToString(status)) == Success(SameNamed(status))
    ensures SameNamed(status) != Active
  {
  }

  /** Distinct end statuses are written as distinct words. */
  lemma StatusToStringInjective(a: EndPredictionStatus, b: EndPredictionStatus)
    requires StatusToString(a) == StatusToString(b)
    ensures a == b
  {
  }

  // ---------------------------------------------------------------------
  // Twitch's prediction record and the shared response record
  // ---------------------------------------------------------------------

  /** `TwitchResponsePredictionOutcome`. */
  datatype TwitchOutcome = TwitchOutcome(id: string, title: string, users: int32, channelPoints: int32, color: string)

  /** `Shared.Responses.PredictionOutcome`. */
  datatype PredictionOutcome = PredictionOutcome(id: string, title: string, users: int32, channelPoints: int32, color: string)

  /** `TwitchResponsePrediction`. */
  datatype TwitchPrediction = TwitchPrediction(
    id: string,
    broadcasterId: string,
    broadcasterName: string,
    broadcasterLogin: string,
    title: string,
    winningOutcomeId: Option<string>,
    outcomes: seq<TwitchOutcome>,
    predictionWindow: int32,
    status: string,
    createdAt: string,
    endedAt: Option<string>,
    lockedAt: Option<string>)

  /** `Shared.Responses.Prediction`. */
  datatype Prediction = Prediction(
    id: string,
    broadcasterId: string,
    broadcasterName: string,
    broadcasterLogin: string,
    title: string,
    winningOutcomeId: Option<string>,
    outcomes: seq<PredictionOutcome>,
    predictionWindow: int32,
    status: PredictionStatus,
    createdAt: string,
    endedAt: Option<string>,
    lockedAt: Option<string>)

  /** `ToResponseOutcome`: the same five fields in the shared record. */
  function ToResponseOutcome(o: TwitchOutcome): (r: PredictionOutcome)
    ensures r.id == o.id && r.title == o.title && r.users == o.users
    ensures r.channelPoints == o.channelPoints && r.color == o.color
  {
    PredictionOutcome(o.id, o.title, o.users, o.channelPoints, o.color)
  }

  /** The outcome Twitch would have sent for a shared outcome record. */
  function FromResponseOutcome(o: PredictionOutcome): TwitchOutcome {
    TwitchOutcome(o.id, o.title, o.users, o.channelPoints, o.color)
  }

  /** No outcome field is lost on the way. */
  lemma ResponseOutcomeLossless(o: TwitchOutcome)
    ensures FromResponseOutcome(ToResponseOutcome(o)) == o
  {
  }

  /** `ToResponsePrediction`: every field copied, the outcomes converted one
      by one in order, and the status word read; an unknown word makes the
      whole conversion fail. */
  function ToResponsePrediction(p: TwitchPrediction): (r: Result<Prediction, string>)
    ensures r.Success? <==> ResponseFromString(p.status).Success?
    ensures r.Success? ==>
              && r.value.status == ResponseFromString(p.status).value
              && |r.value.outcomes| == |p.outcomes|
              && (forall i :: 0 <= i < |p.outcomes| ==> r.value.outcomes[i] == ToResponseOutcome(p.outcomes[i]))
              && r.value.id == p.id && r.value.broadcasterId == p.broadcasterId
              && r.value.broadcasterName == p.broadcasterName && r.value.broadcasterLogin == p.broadcasterLogin
              && r.value.title == p.title && r.value.winningOutcomeId == p.winningOutcomeId
              && r.value.predictionWindow == p.predictionWindow && r.value.createdAt == p.createdAt
              && r.value.endedAt == p.endedAt && r.value.lockedAt == p.lockedAt
    ensures r.Failure? ==> r == Failure(ResponseFromString(p.status).error)
  {
    var status := ResponseFromString(p.status);
    if status.Failure? then Failure(status.error)
    else
      var outcomes := seq(|p.outcomes|, i requires 0 <= i < |p.outcomes| => ToResponseOutcome(p.outcomes[i]));
      Success(Prediction(p.id, p.broadcasterId, p.broadcasterName, p.broadcasterLogin, p.title,
                         p.winningOutcomeId, outcomes, p.predictionWindow, status.value,
                         p.createdAt, p.endedAt, p.lockedAt))
  }

  /** The conversion loses nothing: different Twitch records never convert
      to the same response. */
  lemma ToResponsePredictionInjective(p: TwitchPrediction, q: TwitchPrediction)
    requires ToResponsePrediction(p).Success? && ToResponsePrediction(p) == ToResponsePrediction(q)
    ensures p == q
  {
    var r := ToResponsePrediction(p).value;
    assert |p.outcomes| == |q.outcomes|;
    forall i | 0 <= i < |p.outcomes|
      ensures p.outcomes[i] == q.outcomes[i]
    {
      ResponseOutcomeLossless(p.outcomes[i]);
      ResponseOutcomeLossless(q.outcomes[i]);
    }
  }

  // ---------------------------------------------------------------------
  // CreatePrediction: normalising the request
  // ---------------------------------------------------------------------

  const MaxTitleLength: nat := 45
  const MaxOutcomeTitleLength: nat := 25
  const MinPredictionWindow: int := 30
  const MaxPredictionWindow: int := 1800

  /** `Shared.Requests.CreatePredictionOutcome`. */
  datatype CreatePredictionOutcome = CreatePredictionOutcome(title: string)

  /** `Shared.Requests.CreatePrediction`. The record is immutable, but its
      outcome list is an object of its own that `with` copies share. */
  datatype CreatePrediction = CreatePrediction(
    login: string,
    title: string,
    outcomes: array<CreatePredictionOutcome>,
    predictionWindow: int32)

  /** `TwitchCreatePredictionRequest`: what is sent on to Twitch. */
  datatype TwitchCreatePredictionRequest = TwitchCreatePredictionRequest(
    broadcasterId: string,
    title: string,
    outcomeTitles: seq<string>,
    predictionWindow: int32)

  /** `Substring(0, limit)` when the text is longer than `limit`: the longest
      prefix of at most `limit` characters. */
  function Truncate(s: string, limit: nat): (r: string)
    ensures |r| <= limit && |r| <= |s| && r == s[..|r|]
    ensures |s| <= limit ==> r == s
    ensures |s| > limit ==> |r| == limit
  {
    if |s| > limit then s[..limit] else s
  }

  /** `Math.Clamp(x, lo, hi)`. */
  function Clamp(x: int, lo: int, hi: int): (r: int)
    requires lo <= hi
    ensures lo <= r <= hi
    ensures lo <= x <= hi ==> r == x
    ensures x < lo ==> r == lo
    ensures x > hi ==> r == hi
  {
    if x < lo then lo else if x > hi then hi else x
  }

  /** The window after normalisation: clamped only when out of range. */
  function NormalizedWindow(w: int32): (r: int32)
    ensures MinPredictionWindow <= r <= MaxPredictionWindow
    ensures MinPredictionWindow <= w <= MaxPredictionWindow ==> r == w
  {
    if w < MinPredictionWindow || w > MaxPredictionWindow then
      Clamp(w, MinPredictionWindow, MaxPredictionWindow)
    else w
  }

  function NormalizedOutcome(o: CreatePredictionOutcome): CreatePredictionOutcome {
    if |o.title| > MaxOutcomeTitleLength then o.(title := o.title[..MaxOutcomeTitleLength]) else o
  }

  /** The outcome titles after normalisation. */
  function NormalizedOutcomes(os: seq<CreatePredictionOutcome>): (r: seq<CreatePredictionOutcome>)
    ensures |r| == |os|
    ensures forall i :: 0 <= i < |os| ==> r[i].title == Truncate(os[i].title, MaxOutcomeTitleLength)
  {
    seq(|os|, i requires 0 <= i < |os| => NormalizedOutcome(os[i]))
  }

  function Titles(os: seq<CreatePredictionOutcome>): (r: seq<string>)
    ensures |r| == |os|
    ensures forall i :: 0 <= i < |os| ==> r[i] == os[i].title
  {
    seq(|os|, i requires 0 <= i < |os| => os[i].title)
  }

  /** The request-shaping part of `CreatePrediction` for a user whose Twitch
      id is `broadcasterId`: the title is cut to 45 characters, each outcome
      title is cut to 25 characters in the shared outcome list, and the
      window is clamped into 30..1800 seconds; the login is kept. Returns
      the normalised request and the request forwarded to Twitch. */
  method NormalizeCreateRequest(createRequest: CreatePrediction, broadcasterId: string)
    returns (normalized: CreatePrediction, twitchRequest: TwitchCreatePredictionRequest)
    modifies createRequest.outcomes
    ensures normalized.login == createRequest.login
    ensures normalized.outcomes == createRequest.outcomes
    ensures normalized.title == Truncate(createRequest.title, MaxTitleLength)
    ensures normalized.predictionWindow == NormalizedWindow(createRequest.predictionWindow)
    ensures createRequest.outcomes[..] == NormalizedOutcomes(old(createRequest.outcomes[..]))
    ensures twitchRequest == TwitchCreatePredictionRequest(
              broadcasterId, normalized.title, Titles(createRequest.outcomes[..]), normalized.predictionWindow)
  {
    var request := createRequest;
    if |request.title| > MaxTitleLength {
      request := request.(title := request.title[..MaxTitleLength]);
    }
    var outcomes := request.outcomes;
    var i := 0;
    while i < outcomes.Length
      invariant 0 <= i <= outcomes.Length
      invariant forall k :: 0 <= k < i ==> outcomes[k] == NormalizedOutcome(old(outcomes[k]))
      invariant forall k :: i <= k < outcomes.Length ==> outcomes[k] == old(outcomes[k])
    {
      var outcome := outcomes[i];
      if |outcome.title| > MaxOutcomeTitleLength {
        outcomes[i] := outcome.(title := outcome.title[..MaxOutcomeTitleLength]);
      }
      i := i + 1;
    }
    if request.predictionWindow < MinPredictionWindow || request.predictionWindow > MaxPredictionWindow {
      request := request.(predictionWindow := Clamp(request.predictionWindow, MinPredictionWindow, MaxPredictionWindow));
    }
    normalized := request;
    twitchRequest := TwitchCreatePredictionRequest(
      broadcasterId, request.title, Titles(outcomes[..]), request.predictionWindow);
  }

  /** Every limit Twitch documents holds after normalisation. */
  lemma NormalizedWithinLimits(title: string, os: seq<CreatePredictionOutcome>, w: int32)
    ensures |Truncate(title, MaxTitleLength)| <= MaxTitleLength
    ensures forall i :: 0 <= i < |os| ==> |NormalizedOutcomes(os)[i].title| <= MaxOutcomeTitleLength
    ensures MinPredictionWindow <= NormalizedWindow(w) <= MaxPredictionWindow
  {
  }

  /** Normalising an already normalised request changes nothing. */
  lemma NormalizationIdempotent(title: string, os: seq<CreatePredictionOutcome>, w: int32)
    ensures Truncate(Truncate(title, MaxTitleLength), MaxTitleLength) == Truncate(title, MaxTitleLength)
    ensures NormalizedOutcomes(NormalizedOutcomes(os)) == NormalizedOutcomes(os)
    ensures NormalizedWindow(NormalizedWindow(w)) == NormalizedWindow(w)
  {
    var once := NormalizedOutcomes(os);
    assert forall i :: 0 <= i < |os| ==> NormalizedOutcome(once[i]) == once[i];
  }
}
