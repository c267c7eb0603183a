/** The authorisation filter of a moderation read: which of the asked-for messages the caller
    may see, at one membership question per conversation. */
module Permissions {
  import opened Collections

  /** What the membership check came to. */
  datatype Membership = Member | NoAccess | NotAParticipant | CheckFailed(error: string)

  function IsMember(check: string -> Membership, conversationID: string): (r: Result<bool, string>)
    ensures r.Failure? <==> check(conversationID).CheckFailed?
    ensures r == Success(true) <==> check(conversationID).Member?
  {
    match check(conversationID)
    case Member => Success(true)
    case NoAccess => Success(false)
    case NotAParticipant => Success(false)
    case CheckFailed(error) => Failure(error)
  }

  predicate MaySee(conversations: map<string, string>, check: string -> Membership, messageID: string) {
    messageID in conversations && check(conversations[messageID]).Member?
  }

  /** The plain filter: the caller's ids, in order, that are known and whose conversation the
      caller is in. */
  function Permitted(ids: seq<string>, conversations: map<string, string>, check: string -> Membership)
    : (r: seq<string>)
    ensures forall x :: x in r <==> x in ids && MaySee(conversations, check, x)
  {
    if ids == [] then []
    else
      var front, last := ids[..|ids| - 1], ids[|ids| - 1];
      assert ids == front + [last];
      Permitted(front, conversations, check) + if MaySee(conversations, check, last) then [last] else []
  }

  /** The conversations there is a question about, once each, in order. */
  function ConversationsOf(ids: seq<string>, conversations: map<string, string>): (r: seq<string>)
    ensures forall c :: c in r <==> exists x :: x in ids && x in conversations && conversations[x] == c
  {
    if ids == [] then []
    else
      var front, last := ids[..|ids| - 1], ids[|ids| - 1];
      assert ids == front + [last];
      ConversationsOf(front, conversations) + if last in conversations then [conversations[last]] else []
  }

  ghost function Questions(ids: seq<string>, conversations: map<string, string>): (r: seq<string>)
    ensures NoRepeats(r)
  {
    Dedup(ConversationsOf(ids, conversations))
  }

  lemma QuestionsStep(ids: seq<string>, i: nat, conversations: map<string, string>)
    requires i < |ids|
    ensures var known, asked := ids[i] in conversations, Questions(ids[..i], conversations);
            Questions(ids[..i + 1], conversations)
            == if !known || conversations[ids[i]] in asked then asked else asked + [conversations[ids[i]]]
  {
    hide NoRepeats, Dedup;
    assert ids[..i + 1][..i] == ids[..i];
    var front := ConversationsOf(ids[..i], conversations);
    if ids[i] in conversations {
      DedupSnoc(front, conversations[ids[i]]);
    } else {
      assert front + [] == front;
    }
  }

  lemma PermittedStep(ids: seq<string>, i: nat, conversations: map<string, string>, check: string -> Membership)
    requires i < |ids|
    ensures Permitted(ids[..i + 1], conversations, check)
            == if ids[i] in conversations && check(conversations[ids[i]]).Member?
               then Permitted(ids[..i], conversations, check) + [ids[i]]
               else Permitted(ids[..i], conversations, check)
  {
    assert ids[..i + 1][..i] == ids[..i];
  }

  lemma {:induction false} QuestionsOfPrefix(ids: seq<string>, n: nat, conversations: map<string, string>)
    requires n <= |ids|
    ensures Questions(ids[..n], conversations) <= Questions(ids, conversations)
    decreases |ids| - n
  {
    hide Questions;
    if n == |ids| {
      assert ids[..n] == ids;
    } else {
      QuestionsStep(ids, n, conversations);
      QuestionsOfPrefix(ids, n + 1, conversations);
    }
  }

  ghost predicate AllAnswered(questions: seq<string>, check: string -> Membership) {
    forall c :: c in questions ==> !check(c).CheckFailed?
  }

  /** The answers kept so far are those to the questions asked so far. */
  ghost predicate Records(decided: map<string, bool>, asked: seq<string>, check: string -> Membership) {
    && (forall c :: c in decided <==> c in asked)
    && (forall c :: c in decided ==> decided[c] == check(c).Member?)
  }

  lemma Recorded(decided: map<string, bool>, asked: seq<string>, check: string -> Membership, c: string)
    requires Records(decided, asked, check) && AllAnswered(asked, check)
    ensures c in decided <==> c in asked
    ensures c in decided ==> decided[c] == check(c).Member?
    ensures !check(c).CheckFailed? ==>
              Records(decided[c := check(c).Member?], asked + [c], check) && AllAnswered(asked + [c], check)
    ensures check(c).CheckFailed? ==> !AllAnswered(asked + [c], check)
  {
    if check(c).CheckFailed? {
      assert c in asked + [c];
    }
  }

  lemma FailureEndsIt(ids: seq<string>, i: nat, conversations: map<string, string>, check: string -> Membership)
    requires i < |ids| && ids[i] in conversations && check(conversations[ids[i]]).CheckFailed?
    requires conversations[ids[i]] !in Questions(ids[..i], conversations)
    ensures !AllAnswered(Questions(ids, conversations), check)
    ensures Questions(ids[..i], conversations) + [conversations[ids[i]]] <= Questions(ids, conversations)
  {
    hide Questions, NoRepeats;
    QuestionsStep(ids, i, conversations);
    QuestionsOfPrefix(ids, i + 1, conversations);
    var asked := Questions(ids[..i + 1], conversations);
    assert asked[|asked| - 1] in Questions(ids, conversations);
  }

  lemma NothingAsked(conversations: map<string, string>, check: string -> Membership)
    ensures Questions([], conversations) == [] && Permitted([], conversations, check) == []
    ensures AllAnswered([], check) && Records(map[], [], check)
  {
  }

  /** Nothing goes unanswered exactly when no known id's conversation has a failing check. */
  lemma AnsweredMeans(ids: seq<string>, conversations: map<string, string>, check: string -> Membership)
    ensures AllAnswered(Questions(ids, conversations), check) <==>
              forall x :: x in ids && x in conversations ==> !check(conversations[x]).CheckFailed?
  {
    var questions := ConversationsOf(ids, conversations);
    assert forall c :: c in Questions(ids, conversations) <==> c in questions;
    forall x | x in ids && x in conversations ensures conversations[x] in questions {
    }
  }

  lemma PermittedMeans(ids: seq<string>, conversations: map<string, string>, check: string -> Membership)
    ensures forall x :: x in Permitted(ids, conversations, check) <==>
              x in ids && x in conversations && check(conversations[x]) == Member
  {
    hide Permitted;
  }

  /** Only conversations of the ids are asked about, whatever part of the questions is put. */
  lemma AskedMeans(ids: seq<string>, conversations: map<string, string>)
    ensures forall asked :: asked <= Questions(ids, conversations) ==>
              && NoRepeats(asked)
              && forall c :: c in asked ==> exists x :: x in ids && x in conversations && conversations[x] == c
  {
    forall asked | asked <= Questions(ids, conversations)
      ensures NoRepeats(asked)
      ensures forall c :: c in asked ==> c in ConversationsOf(ids, conversations)
    {
      assert forall i :: 0 <= i < |asked| ==> asked[i] == Questions(ids, conversations)[i];
    }
  }

  /** Later ids only add to the end of what is permitted: it keeps the order of the ids. */
  lemma {:induction false} PermittedOfPrefix(
    ids: seq<string>, n: nat, conversations: map<string, string>, check: string -> Membership)
    requires n <= |ids|
    ensures Permitted(ids[..n], conversations, check) <= Permitted(ids, conversations, check)
    decreases |ids|
  {
    if n == |ids| {
      assert ids[..n] == ids;
    } else {
      hide MaySee;
      assert ids[..|ids| - 1][..n] == ids[..n];
      PermittedOfPrefix(ids[..|ids| - 1], n, conversations, check);
    }
  }

  /** `asked` lists the membership questions put, in order. An error is the first check that
      failed, and comes with no list. */
  method PermittedMessages(ids: seq<string>, conversations: map<string, string>, check: string -> Membership)
    returns (r: Result<seq<string>, string>, asked: seq<string>)
    ensures r.Success? <==> AllAnswered(Questions(ids, conversations), check)
    ensures r.Success? ==> r.value == Permitted(ids, conversations, check) && asked == Questions(ids, conversations)
    ensures r.Success? <==> forall x :: x in ids && x in conversations ==> !check(conversations[x]).CheckFailed?
    ensures r.Success? ==>
              forall x :: x in r.value <==> x in ids && x in conversations && check(conversations[x]) == Member
    ensures NoRepeats(asked)
            && forall c :: c in asked ==> exists x :: x in ids && x in conversations && conversations[x] == c
    ensures r.Failure? ==>
              && asked != [] && asked <= Questions(ids, conversations)
              && check(asked[|asked| - 1]) == CheckFailed(r.error)
              && AllAnswered(asked[..|asked| - 1], check)
  {
    NothingAsked(conversations, check);
    AnsweredMeans(ids, conversations, check);
    PermittedMeans(ids, conversations, check);
    AskedMeans(ids, conversations);
    hide Questions, Permitted, NoRepeats, Records, AllAnswered, MaySee;
    asked := [];
    var allowed: seq<string> := [];
    var decided: map<string, bool> := map[];
    for i := 0 to |ids|
      invariant asked == Questions(ids[..i], conversations)
      invariant allowed == Permitted(ids[..i], conversations, check)
      invariant AllAnswered(asked, check)
      invariant Records(decided, asked, check)
    {
      QuestionsStep(ids, i, conversations);
      PermittedStep(ids, i, conversations, check);
      if ids[i] !in conversations {
        continue;
      }
      var conversationID := conversations[ids[i]];
      Recorded(decided, asked, check, conversationID);
      if conversationID !in decided {
        var answer := IsMember(check, conversationID);
        asked := asked + [conversationID];
        if answer.Failure? {
          FailureEndsIt(ids, i, conversations, check);
          assert asked[..|asked| - 1] == Questions(ids[..i], conversations);
          return Failure(answer.error), asked;
        }
        decided := decided[conversationID := answer.value];
      }
      if decided[conversationID] {
        allowed := allowed + [ids[i]];
      }
    }
    assert ids[..|ids|] == ids;
    return Success(allowed), asked;
  }

  lemma {:induction false} PermittedKeepsDistinct(
    ids: seq<string>, conversations: map<string, string>, check: string -> Membership)
    requires NoRepeats(ids)
    ensures NoRepeats(Permitted(ids, conversations, check))
  {
    if ids != [] {
      hide MaySee;
      PermittedKeepsDistinct(ids[..|ids| - 1], conversations, check);
    }
  }

  datatype ModerationError = ConversationsUnreadable | MembershipUnreadable(error: string)

  /** The messages whose moderation a caller may read: each asked-for id at most once, and
      exactly those that are known and in a conversation of the caller's. */
  method ReadableMessages(
    messageIDs: seq<string>, stored: map<string, string>, check: string -> Membership, readFails: bool)
    returns (r: Result<seq<string>, ModerationError>)
    ensures r.Success? ==>
              && NoRepeats(r.value)
              && forall x :: x in r.value <==>
                   x != "" && x in messageIDs && x in stored && check(stored[x]) == Member
    ensures r.Success? ==> r.value == Permitted(Dedup(NonBlank(messageIDs)), stored, check)
    ensures r.Failure? <==>
              || (readFails && exists x :: x in messageIDs && x != "")
              || exists x :: x in messageIDs && x != "" && x in stored && check(stored[x]).CheckFailed?
  {
    hide Questions, Permitted, Dedup, NonBlank, NoRepeats, AllAnswered, MaySee;
    var ids := Distinct(messageIDs);
    if |ids| == 0 {
      assert forall x :: x != "" && x in messageIDs ==> x in NonBlank(messageIDs);
      NothingTwice(stored, check);
      return Success([]);
    }
    if readFails {
      assert ids[0] in NonBlank(messageIDs);
      return Failure(ConversationsUnreadable);
    }
    var allowed, asked := PermittedMessages(ids, stored, check);
    match allowed {
      case Failure(error) => return Failure(MembershipUnreadable(error));
      case Success(permitted) =>
        PermittedKeepsDistinct(ids, stored, check);
        return Success(permitted);
    }
  }

  lemma NothingTwice(stored: map<string, string>, check: string -> Membership)
    ensures Dedup<string>([]) == [] && NoRepeats<string>([]) && Permitted([], stored, check) == []
  {
  }
}
