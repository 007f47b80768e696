/**
  The earlier chat bot (destination-chat-model.py, class TaxiChatBot): the
  destination is the raw utterance, and a yes/no reply confirms or rejects it.

  The conversation chain with its memory is asked on every turn; its answer
  for the turn is the parameter `response`.
 */
module EarlyChatModel {
  import opened Options
  import opened PyStr

  const IsThisRight := "(이)가 맞을까요?"
  const StartSearch := "(으)로 정확한 위치 검색을 시작하겠습니다."
  const AskAgain := "죄송합니다. 다시 목적지를 말씀해 주세요."
  const NotUnderstood := "응답을 이해하지 못했습니다. '네' 또는 '아니오'로 대답해 주세요."

  /** The fields `process_message` reads or writes. */
  datatype Session = Session(destination: Option<string>, confirmed: bool)

  const Initial := Session(None, false)

  /** The inline yes test: "네", "맞아" or "응" occurs in the message. */
  predicate SaysYes(message: string): (r: bool)
    ensures r ==> message != []
  {
    Contains(message, "네") || Contains(message, "맞아") || Contains(message, "응")
  }

  /** The inline no test: "아니" occurs in the message. */
  predicate SaysNo(message: string): (r: bool)
    ensures r ==> |message| >= 2
  {
    Contains(message, "아니")
  }

  /** One call of `process_message(message)`, the chain having answered `response`. */
  function Turn(s: Session, message: string, response: string): (r: (Session, string))
    ensures s.confirmed ==> r.0.confirmed
    ensures r.0.confirmed && !s.confirmed ==> Truthy(s.destination) && r.0.destination == s.destination
  {
    if !Truthy(s.destination) then
      (s.(destination := Some(message)), response + "\n" + message + IsThisRight)
    else if !s.confirmed then
      if SaysYes(message) then
        (s.(confirmed := true), "목적지 " + s.destination.value + StartSearch)
      else if SaysNo(message) then
        (s.(destination := None), AskAgain)
      else
        (s, NotUnderstood)
    else
      (s, response)
  }

  /** The session after a sequence of turns, the chain answering `responses`. */
  function Run(s: Session, messages: seq<string>, responses: seq<string>): (r: Session)
    requires |messages| == |responses|
    ensures s.confirmed ==> r.confirmed
    decreases |messages|
  {
    if messages == [] then s
    else Run(Turn(s, messages[0], responses[0]).0, messages[1..], responses[1..])
  }

  /** Reachable sessions: nothing is confirmed without a destination. */
  ghost predicate Consistent(s: Session) {
    s.confirmed ==> Truthy(s.destination)
  }

  lemma TurnPreservesConsistent(s: Session, message: string, response: string)
    requires Consistent(s)
    ensures Consistent(Turn(s, message, response).0)
  {
  }

  /** With no destination, the message itself becomes the destination, untrimmed. */
  lemma UnsetDestinationTakesMessage(s: Session, message: string, response: string)
    requires !Truthy(s.destination)
    ensures var (t, reply) := Turn(s, message, response);
      t == Session(Some(message), s.confirmed) && reply == response + "\n" + message + IsThisRight
  {
  }

  /** An empty destination counts as none: the next message replaces it. */
  lemma EmptyDestinationIsReplaced(s: Session, message: string, r1: string, r2: string)
    requires !Truthy(s.destination)
    ensures var t := Turn(s, "", r1).0;
      t.destination == Some("") && Turn(t, message, r2).0.destination == Some(message)
  {
  }

  /** A yes confirms and keeps the destination. */
  lemma YesConfirms(s: Session, message: string, response: string)
    requires Truthy(s.destination) && !s.confirmed && SaysYes(message)
    ensures var (t, reply) := Turn(s, message, response);
      t == s.(confirmed := true) && reply == "목적지 " + s.destination.value + StartSearch
  {
  }

  /** A no without a yes forgets the destination and confirms nothing. */
  lemma NoRejects(s: Session, message: string, response: string)
    requires Truthy(s.destination) && !s.confirmed && !SaysYes(message) && SaysNo(message)
    ensures var (t, reply) := Turn(s, message, response);
      t == Session(None, false) && reply == AskAgain
  {
  }

  /** "아니" is only looked at when no yes word matched: "아니 맞아" confirms. */
  lemma YesBeforeNo(s: Session, response: string)
    requires Truthy(s.destination) && !s.confirmed
    ensures Turn(s, "아니 맞아", response).0.confirmed
  {
    assert OccursAt("아니 맞아", "맞아", 3);
  }

  /** A message with neither changes nothing. */
  lemma NeitherKeepsSession(s: Session, message: string, response: string)
    requires Truthy(s.destination) && !s.confirmed && !SaysYes(message) && !SaysNo(message)
    ensures Turn(s, message, response) == (s, NotUnderstood)
  {
  }

  /**
    After confirmation a turn changes nothing and hands back the chain's
    answer as it is.
   */
  lemma ConfirmedTurnEchoesResponse(s: Session, message: string, response: string)
    requires Consistent(s) && s.confirmed
    ensures Turn(s, message, response) == (s, response)
  {
  }

  /** Confirmation is permanent, whatever is said afterwards. */
  lemma {:induction false} ConfirmationIsPermanent(s: Session, messages: seq<string>, responses: seq<string>)
    requires Consistent(s) && s.confirmed && |messages| == |responses|
    ensures Run(s, messages, responses) == s
    decreases |messages|
  {
    if messages != [] {
      ConfirmedTurnEchoesResponse(s, messages[0], responses[0]);
      ConfirmationIsPermanent(s, messages[1..], responses[1..]);
    }
  }

  /** A rejection followed by a new message makes that message the destination. */
  lemma RejectThenRestate(s: Session, no: string, place: string, r1: string, r2: string)
    requires Truthy(s.destination) && !s.confirmed && !SaysYes(no) && SaysNo(no)
    ensures Turn(Turn(s, no, r1).0, place, r2).0 == Session(Some(place), false)
  {
  }

  /** One session of the earlier chat bot. */
  class TaxiChatBot {
    var destination: Option<string>
    var confirmed: bool

    function State(): Session
      reads this
    {
      Session(destination, confirmed)
    }

    ghost predicate Valid()
      reads this
    {
      Consistent(State())
    }

    constructor ()
      ensures Valid() && State() == Initial
    {
      destination := None;
      confirmed := false;
    }

    /** `process_message`, with `response` the chain's answer to `message`. */
    method ProcessMessage(message: string, response: string) returns (reply: string)
      requires Valid()
      modifies this
      ensures Valid()
      ensures (State(), reply) == Turn(old(State()), message, response)
      ensures old(confirmed) ==> confirmed && destination == old(destination)
    {
      if !Truthy(destination) {
        destination := Some(message);
        return response + "\n" + message + IsThisRight;
      }
      if !confirmed {
        if SaysYes(message) {
          confirmed := true;
          return "목적지 " + destination.value + StartSearch;
        } else if SaysNo(message) {
          destination := None;
          return AskAgain;
        } else {
          return NotUnderstood;
        }
      }
      return response;
    }
  }
}
