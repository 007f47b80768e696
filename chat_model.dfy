/**
  The destination dialogue of the taxi chat bot (model.py, class TaxiChatBot).

  One call of `process_message` either normalises the utterance into a
  destination and checks whether it names a chain store, or records the
  branch of that chain store, or classifies a yes/no reply. The language
  model behind `correct_destination` is a parameter `correct` of each turn.

  `Turn` is the specification of one call on the session's fields;
  `TaxiChatBot.ProcessMessage` updates the object and is proved to agree with it.
 */
module ChatModel {
  import opened Options
  import opened PyStr

  /** `self.chain_stores`: destinations that need a branch before confirming. */
  const ChainStores: seq<string> := ["스타벅스", "맥도날드", "버거킹", "이디야", "올리브영", "CU", "GS25",
    "더현대", "현대백화점", "롯데백화점", "롯데월드", "서브웨이", "투썸플레이스", "투썸", "올드페리도넛", "스타필드"]

  /** Words whose presence in a reply confirms the destination. */
  const PositiveResponses: seq<string> := ["네", "맞아", "응", "어", "마자", "마저", "그래"]

  /** Words whose presence (without a positive word) rejects it. */
  const NegativeResponses: seq<string> := ["아니", "아녀", "아뇨", "아니야", "노"]

  const ChainStoreQuestion := "(이)가 맞나요? 지점을 말해주실 수 있나요?"
  const IsThisRight := "(이)가 맞을까요?"
  const StartSearch := "(으)로 정확한 위치 검색을 시작하겠습니다."
  const AskAgain := "죄송합니다. 다시 목적지를 말씀해 주세요."
  const NotUnderstood := "응답을 이해하지 못했습니다. '네' 또는 '아니오'로 대답해 주세요."
  const AlreadyConfirmed := "(으)로 확정되었습니다."

  /** The fields of a TaxiChatBot that `process_message` reads or writes. */
  datatype Session = Session(
    destination: Option<string>,
    askingBranch: bool,
    branchInfo: string,
    confirmed: bool,
    finalDestination: Option<string>)

  /** What `__init__` sets (`final_destination` does not exist yet). */
  const Initial := Session(None, false, "", false, None)

  /** The triple `process_message` returns. */
  datatype Reply = Reply(message: string, finalDestination: Option<string>, done: bool)

  /** `is_chain_store`: exact membership in the list, not a substring test. */
  function IsChainStore(destination: string): (r: bool)
    ensures r ==> destination != [] && Stripped(destination)
  {
    destination in ChainStores
  }

  /** `correct_destination`: the language model's answer, stripped. */
  function CorrectDestination(correct: string -> string, text: string): (r: string)
    ensures Stripped(r)
  {
    Strip(correct(text))
  }

  /** `f"{destination} {branch_info}".strip()`, the destination handed on. */
  function Assemble(destination: string, branchInfo: string): (r: string)
    ensures Stripped(r)
  {
    Strip(destination + " " + branchInfo)
  }

  /** The state a turn is in, read the way `process_message` reads its fields. */
  predicate CollectingDestination(s: Session) { !Truthy(s.destination) }
  predicate AwaitingBranch(s: Session) { Truthy(s.destination) && s.askingBranch }
  predicate AwaitingConfirmation(s: Session) {
    Truthy(s.destination) && !s.askingBranch && !s.confirmed
  }

  /** One call of `process_message(message)`: the new fields and the reply. */
  function Turn(s: Session, message: string, correct: string -> string): (r: (Session, Reply))
    ensures r.1.done <==> r.1.finalDestination.Some?
    ensures r.1.done ==> !s.confirmed && r.0.confirmed
    ensures s.confirmed ==> r.0.confirmed
  {
    if !Truthy(s.destination) then
      var d := Strip(CorrectDestination(correct, message));
      if IsChainStore(d) then
        (s.(destination := Some(d), askingBranch := true), Reply(d + ChainStoreQuestion, None, false))
      else
        (s.(destination := Some(d)), Reply(d + IsThisRight, None, false))
    else if s.askingBranch then
      var b := Strip(message);
      (s.(branchInfo := b, askingBranch := false),
       Reply(s.destination.value + " " + b + IsThisRight, None, false))
    else if !s.confirmed then
      if ContainsAny(message, PositiveResponses) then
        var f := Assemble(s.destination.value, s.branchInfo);
        (s.(confirmed := true, finalDestination := Some(f), askingBranch := false),
         Reply("목적지 " + s.destination.value + " " + s.branchInfo + StartSearch, Some(f), true))
      else if ContainsAny(message, NegativeResponses) then
        (s.(destination := None, branchInfo := ""), Reply(AskAgain, None, false))
      else
        (s, Reply(NotUnderstood, None, false))
    else
      (s, Reply("이미 목적지가 " + s.destination.value + " " + s.branchInfo + AlreadyConfirmed, None, false))
  }

  /** The session after a sequence of turns, with one normaliser throughout. */
  function Run(s: Session, messages: seq<string>, correct: string -> string): (r: Session)
    ensures s.confirmed ==> r.confirmed
    decreases |messages|
  {
    if messages == [] then s else Run(Turn(s, messages[0], correct).0, messages[1..], correct)
  }

  /**
    What holds of every session reachable from `Initial`: the destination and
    branch are stripped, a branch is asked for only before confirmation and
    while none is recorded, no branch or confirmation exists without a
    destination, and `final_destination` exists exactly once confirmed.
   */
  ghost predicate Consistent(s: Session) {
    && (s.destination.Some? ==> Stripped(s.destination.value))
    && Stripped(s.branchInfo)
    && (!Truthy(s.destination) ==> !s.askingBranch && !s.confirmed && s.branchInfo == "")
    && (s.askingBranch ==> !s.confirmed && s.branchInfo == "")
    && s.finalDestination == (if s.confirmed then Some(Assemble(s.destination.value, s.branchInfo)) else None)
  }

  lemma InitialIsConsistent()
    ensures Consistent(Initial)
  {
  }

  /** Every turn keeps a reachable session reachable. */
  lemma TurnPreservesConsistent(s: Session, message: string, correct: string -> string)
    requires Consistent(s)
    ensures Consistent(Turn(s, message, correct).0)
  {
  }

  /**
    With no destination yet, the turn stores the normaliser's stripped answer
    and asks for a branch exactly when that answer is a chain store name.
   */
  lemma DestinationTurn(s: Session, message: string, correct: string -> string)
    requires CollectingDestination(s)
    ensures var (t, r) := Turn(s, message, correct);
      && t == s.(destination := Some(Strip(correct(message))),
                 askingBranch := Strip(correct(message)) in ChainStores || s.askingBranch)
      && r.finalDestination == None && !r.done
  {
    StripIdempotent(correct(message));
  }

  /** A chain store name with a branch attached is not a chain store name. */
  lemma ChainStoreIsExactMembership()
    ensures IsChainStore("스타벅스")
    ensures Contains("스타벅스 강남역점", "스타벅스")
    ensures !IsChainStore("스타벅스 강남역점")
  {
    assert OccursAt("스타벅스 강남역점", "스타벅스", 0);
  }

  /**
    A branch turn records the stripped message as the branch and stops asking;
    the destination and the confirmation are untouched.
   */
  lemma BranchTurn(s: Session, message: string, correct: string -> string)
    requires AwaitingBranch(s)
    ensures var (t, r) := Turn(s, message, correct);
      && t == s.(branchInfo := Strip(message), askingBranch := false)
      && r.finalDestination == None && !r.done
  {
  }

  /**
    A turn is done exactly when it confirms: the session awaited confirmation
    and the message contains a positive word. Then the destination and branch
    are handed on, and no other turn hands on anything.
   */
  lemma DoneExactlyOnConfirmation(s: Session, message: string, correct: string -> string)
    ensures var (t, r) := Turn(s, message, correct);
      && (r.done <==> AwaitingConfirmation(s) && ContainsAny(message, PositiveResponses))
      && (r.done ==> r.finalDestination == Some(Assemble(s.destination.value, s.branchInfo))
                     && t == s.(confirmed := true, finalDestination := r.finalDestination))
      && (!r.done ==> r.finalDestination == None)
  {
  }

  /** The positive list is checked first: a reply with words of both lists confirms. */
  lemma PositiveWinsOverNegative(s: Session, message: string, correct: string -> string)
    requires AwaitingConfirmation(s)
    requires ContainsAny(message, PositiveResponses) && ContainsAny(message, NegativeResponses)
    ensures Turn(s, message, correct).1.done
  {
  }

  /** So "아니 틀렸어" ("no, that's wrong") confirms, because it ends in "어". */
  lemma WrongIsTakenAsYes(s: Session, correct: string -> string)
    requires AwaitingConfirmation(s)
    ensures Turn(s, "아니 틀렸어", correct).1.done
  {
    assert OccursAt("아니 틀렸어", "어", 5);
    assert Contains("아니 틀렸어", PositiveResponses[3]);
  }

  /**
    A reply with a negative word and no positive word forgets the destination
    and the branch; nothing is confirmed and the turn is not done.
   */
  lemma NegativeResets(s: Session, message: string, correct: string -> string)
    requires AwaitingConfirmation(s)
    requires !ContainsAny(message, PositiveResponses) && ContainsAny(message, NegativeResponses)
    ensures var (t, r) := Turn(s, message, correct);
      && t == s.(destination := None, branchInfo := "")
      && !t.confirmed && CollectingDestination(t)
      && r == Reply(AskAgain, None, false)
  {
  }

  /** A reply from neither list changes nothing. */
  lemma UnrecognisedReplyKeepsSession(s: Session, message: string, correct: string -> string)
    requires AwaitingConfirmation(s)
    requires !ContainsAny(message, PositiveResponses) && !ContainsAny(message, NegativeResponses)
    ensures Turn(s, message, correct) == (s, Reply(NotUnderstood, None, false))
  {
  }

  /** An empty reply (an utterance that failed to transcribe) is such a reply. */
  lemma EmptyReplyKeepsSession(s: Session, correct: string -> string)
    requires AwaitingConfirmation(s)
    ensures Turn(s, "", correct) == (s, Reply(NotUnderstood, None, false))
  {
    EmptyContainsNoWord(PositiveResponses);
    EmptyContainsNoWord(NegativeResponses);
  }

  /**
    The destination handed on is the destination alone when no branch was
    given, and otherwise destination and branch joined by one space.
   */
  lemma FinalDestinationShape(s: Session, message: string, correct: string -> string)
    requires Consistent(s)
    requires Turn(s, message, correct).1.done
    ensures Turn(s, message, correct).1.finalDestination ==
      Some(if s.branchInfo == "" then s.destination.value else s.destination.value + " " + s.branchInfo)
  {
    StripSpaceJoin(s.destination.value, s.branchInfo);
  }

  /** The example of the dialogue: "서울역", then "네", hands on "서울역". */
  lemma SeoulStationIsConfirmed(correct: string -> string)
    ensures Turn(Session(Some("서울역"), false, "", false, None), "네", correct).1
         == Reply("목적지 서울역 " + StartSearch, Some("서울역"), true)
  {
    assert OccursAt("네", "네", 0);
    assert Contains("네", PositiveResponses[0]);
    StripSpaceJoin("서울역", "");
  }

  /**
    Once confirmed (with a destination and no pending branch question) the
    session is frozen: a turn changes nothing and is not done.
   */
  lemma ConfirmedTurnIsInert(s: Session, message: string, correct: string -> string)
    requires Truthy(s.destination) && !s.askingBranch && s.confirmed
    ensures var (t, r) := Turn(s, message, correct);
      t == s && !r.done && r.finalDestination == None
  {
  }

  /** ... and so is any number of turns. */
  lemma {:induction false} ConfirmedSessionIsFrozen(s: Session, messages: seq<string>, correct: string -> string)
    requires Truthy(s.destination) && !s.askingBranch && s.confirmed
    ensures Run(s, messages, correct) == s
    decreases |messages|
  {
    if messages != [] {
      ConfirmedTurnIsInert(s, messages[0], correct);
      ConfirmedSessionIsFrozen(s, messages[1..], correct);
    }
  }

  /** After a rejection the next utterance is normalised into the new destination. */
  lemma RejectThenRestate(s: Session, no: string, place: string, correct: string -> string)
    requires Consistent(s) && AwaitingConfirmation(s)
    requires !ContainsAny(no, PositiveResponses) && ContainsAny(no, NegativeResponses)
    ensures var t := Turn(Turn(s, no, correct).0, place, correct).0;
      t.destination == Some(Strip(correct(place))) && t.branchInfo == "" && !t.confirmed
      && t.askingBranch == (Strip(correct(place)) in ChainStores)
  {
    var t := Turn(s, no, correct).0;
    DestinationTurn(t, place, correct);
  }

  /** One session of the chat bot. */
  class TaxiChatBot {
    var destination: Option<string>
    var confirmed: bool
    var askingBranch: bool
    var branchInfo: string
    var finalDestination: Option<string>

    /** The fields as a Session value. */
    function State(): Session
      reads this
    {
      Session(destination, askingBranch, branchInfo, confirmed, finalDestination)
    }

    ghost predicate Valid()
      reads this
    {
      Consistent(State())
    }

    constructor ()
      ensures Valid() && State() == Initial
    {
      destination := None;
      confirmed := false;
      askingBranch := false;
      branchInfo := "";
      finalDestination := None;
    }

    /** `process_message`: returns `(reply, final destination or None, done)`. */
    method ProcessMessage(message: string, correct: string -> string)
      returns (reply: string, final: Option<string>, done: bool)
      requires Valid()
      modifies this
      ensures Valid()
      ensures (State(), Reply(reply, final, done)) == Turn(old(State()), message, correct)
    {
      TurnPreservesConsistent(State(), message, correct);
      if !Truthy(destination) {
        var corrected := CorrectDestination(correct, message);
        var d := Strip(corrected);
        destination := Some(d);
        if IsChainStore(d) {
          askingBranch := true;
          reply := d + ChainStoreQuestion;
        } else {
          reply := d + IsThisRight;
        }
      } else if askingBranch {
        branchInfo := Strip(message);
        reply := destination.value + " " + branchInfo + IsThisRight;
        askingBranch := false;
      } else if !confirmed {
        if ContainsAny(message, PositiveResponses) {
          confirmed := true;
          reply := "목적지 " + destination.value + " " + branchInfo + StartSearch;
          finalDestination := Some(Assemble(destination.value, branchInfo));
          askingBranch := false;
          return reply, finalDestination, true;
        } else if ContainsAny(message, NegativeResponses) {
          destination := None;
          branchInfo := "";
          reply := AskAgain;
        } else {
          reply := NotUnderstood;
        }
      } else {
        reply := "이미 목적지가 " + destination.value + " " + branchInfo + AlreadyConfirmed;
      }
      return reply, None, false;
    }
  }
}
