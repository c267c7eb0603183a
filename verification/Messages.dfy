/** Stored message rows and how they are read back: the two shapes of `replyingTo`, the
    decoders, the reply-parent enrichment and the `RepliesTo` query. */
module Messages {
  import opened Collections

  /** A stored value, as far as the decoders look into it. A document keeps its `type` and
      `id` entries when those are strings; anything else is `Other`. */
  datatype BsonValue =
    | Text(text: string)
    | Doc(kind: Option<string>, id: Option<string>)
    | Other

  /** One row of the messages collection. A string field that is absent or not a string
      reads as "", exactly as the decoders' unchecked type assertions give it. */
  datatype Document = Document(
    messageID: string,
    conversationID: string,
    sender: string,
    content: Option<string>,
    messageType: string,
    isReply: bool,
    isDeleted: bool,
    createdAt: int,
    replyingTo: BsonValue)

  /** The collection, keyed by message id. */
  type MessageStore = m: map<string, Document> |
    forall id :: id in m ==> m[id].messageID == id

  datatype ReplyTarget = ReplyTarget(kind: string, id: string)

  datatype Message = Message(
    messageID: string,
    conversationID: string,
    senderEntityID: string,
    content: string,
    createdAt: int,
    messageType: string,
    isReply: bool,
    replyingTo: string,
    replyTarget: Option<ReplyTarget>,
    replyingToSender: string)

  datatype StoreError = StoreError

  const REPLY_TARGET_MESSAGE := "message"

  /** The message id replied to ("" when there is none) and the target, whatever it is. */
  function DecodeReplyingTo(value: BsonValue): (string, Option<ReplyTarget>) {
    match value
    case Text(s) => if s == "" then ("", None) else (s, Some(ReplyTarget(REPLY_TARGET_MESSAGE, s)))
    case Doc(Some(kind), Some(id)) =>
      if kind == "" || id == "" then ("", None)
      else if kind == REPLY_TARGET_MESSAGE then (id, Some(ReplyTarget(kind, id)))
      else ("", Some(ReplyTarget(kind, id)))
    case _ => ("", None)
  }

  /** What a sender of this service stores for a reply to `messageID`. */
  function StoredReplyingTo(messageID: string): BsonValue {
    if messageID == "" then Text("") else Doc(Some(REPLY_TARGET_MESSAGE), Some(messageID))
  }

  /** Decoding recovers every id that is written, and a bare-id row reads the same as a
      row written now: neither the id nor the target depends on the stored shape. */
  lemma DecodeInvertsStore(messageID: string)
    ensures DecodeReplyingTo(StoredReplyingTo(messageID)).0 == messageID
    ensures DecodeReplyingTo(StoredReplyingTo(messageID)) == DecodeReplyingTo(Text(messageID))
    ensures messageID != "" ==> StoredReplyingTo(messageID) == Doc(Some("message"), Some(messageID))
  {
  }

  function MessageParent(d: Document): string {
    DecodeReplyingTo(d.replyingTo).0
  }

  /** None for a row without an id, a sender or text content. */
  function DecodeMessage(raw: Document, conversationID: string): (m: Option<Message>)
    ensures m.Some? <==> raw.messageID != "" && raw.sender != "" && raw.content.Some?
    ensures m.Some? ==> m.value.messageID == raw.messageID && m.value.replyingTo == MessageParent(raw)
  {
    if raw.messageID == "" || raw.sender == "" || raw.content.None? then None
    else
      var (replyingTo, replyTarget) := DecodeReplyingTo(raw.replyingTo);
      Some(Message(
             raw.messageID,
             if raw.conversationID != "" then raw.conversationID else conversationID,
             raw.sender,
             raw.content.value,
             raw.createdAt,
             if raw.messageType == "" then "text" else raw.messageType,
             raw.isReply,
             replyingTo,
             replyTarget,
             ""))
  }

  /** What a decoded message says, in the row's own fields. */
  lemma DecodeMeans(raw: Document, conversationID: string)
    requires raw.messageID != "" && raw.sender != "" && raw.content.Some?
    ensures DecodeMessage(raw, conversationID).Some?
    ensures var m := DecodeMessage(raw, conversationID).value;
            && m.messageID == raw.messageID && m.senderEntityID == raw.sender && raw.content == Some(m.content)
            && m.createdAt == raw.createdAt && m.isReply == raw.isReply
            && (raw.conversationID != "" ==> m.conversationID == raw.conversationID)
            && (raw.conversationID == "" ==> m.conversationID == conversationID)
            && (raw.messageType != "" ==> m.messageType == raw.messageType)
            && (raw.messageType == "" ==> m.messageType == "text")
    ensures var m := DecodeMessage(raw, conversationID).value;
            forall kind, id :: kind != "" && id != "" && raw.replyingTo == Doc(Some(kind), Some(id)) ==>
              && m.replyTarget == Some(ReplyTarget(kind, id))
              && m.replyingTo == if kind == "message" then id else ""
    ensures var m := DecodeMessage(raw, conversationID).value;
            forall id :: id != "" && raw.replyingTo == Text(id) ==>
              m.replyingTo == id && m.replyTarget == Some(ReplyTarget("message", id))
  {
  }

  /** A value that names no target decodes to none. */
  lemma NoTargetMeans(raw: Document, conversationID: string)
    requires raw.messageID != "" && raw.sender != "" && raw.content.Some?
    ensures DecodeMessage(raw, conversationID).Some?
    ensures var m := DecodeMessage(raw, conversationID).value;
            m.replyTarget.None? <==>
            || raw.replyingTo == Text("") || raw.replyingTo.Other?
            || (raw.replyingTo.Doc? && (raw.replyingTo.kind.None? || raw.replyingTo.id.None?
                                        || raw.replyingTo.kind.value == "" || raw.replyingTo.id.value == ""))
    ensures var m := DecodeMessage(raw, conversationID).value;
            m.replyTarget.None? ==> m.replyingTo == ""
  {
  }

  // ------------------------------------------------------------ reply-parent enrichment

  /** The sender of the message `id`, wherever it is stored; "" when nobody can be named. */
  function SenderOf(db: MessageStore, id: string): string {
    if id != "" && id in db then db[id].sender else ""
  }

  function WithParentSender(db: MessageStore, m: Message): Message {
    m.(replyingToSender := SenderOf(db, m.replyingTo))
  }

  ghost predicate AnyParent(messages: seq<Message>) {
    exists m :: m in messages && m.replyingTo != ""
  }

  /** What the batch reads as afterwards: untouched when no row names a parent. */
  ghost function Enriched(db: MessageStore, messages: seq<Message>): (r: seq<Message>)
    ensures |r| == |messages|
  {
    if AnyParent(messages)
    then seq(|messages|, i requires 0 <= i < |messages| => WithParentSender(db, messages[i]))
    else messages
  }

  /** Freshly decoded rows carry no parent sender yet, so enrichment is pointwise. */
  lemma EnrichedPointwise(db: MessageStore, messages: seq<Message>)
    requires forall i :: 0 <= i < |messages| ==> messages[i].replyingToSender == ""
    ensures forall i :: 0 <= i < |messages| ==>
              Enriched(db, messages)[i] == WithParentSender(db, messages[i])
  {
    forall i | 0 <= i < |messages|
      ensures Enriched(db, messages)[i] == WithParentSender(db, messages[i])
    {
      assert messages[i] in messages;
    }
  }

  /** When a row's parent sender reads "" after enrichment: it replies to no message, the
      parent is not stored, or the stored parent names no sender. Deletion plays no part. */
  lemma ParentSenderBlankIff(db: MessageStore, messages: seq<Message>, i: nat)
    requires i < |messages| && forall k :: 0 <= k < |messages| ==> messages[k].replyingToSender == ""
    ensures var parent := messages[i].replyingTo;
            Enriched(db, messages)[i].replyingToSender == "" <==>
            parent == "" || parent !in db || db[parent].sender == ""
  {
    EnrichedPointwise(db, messages);
  }

  /** A deleted parent is named all the same. */
  lemma DeletedParentIsNamed(db: MessageStore, parent: Document, reply: Document)
    requires parent == Document("m1", "c", "ana", Some("hi"), "text", false, true, 0, Text(""))
    requires reply == Document("m2", "c", "bob", Some("yes"), "text", true, false, 1, StoredReplyingTo("m1"))
    requires db == map["m1" := parent, "m2" := reply]
    ensures DecodeMessage(reply, "c").Some?
    ensures Enriched(db, [DecodeMessage(reply, "c").value])[0].replyingToSender == "ana"
  {
    EnrichedPointwise(db, [DecodeMessage(reply, "c").value]);
  }

  /** The non-empty parent ids of a batch, in order. */
  function ParentIDs(messages: seq<Message>): (ids: seq<string>)
    ensures forall id :: id in ids <==> id != "" && exists m :: m in messages && m.replyingTo == id
  {
    if messages == [] then []
    else
      var front, last := messages[..|messages| - 1], messages[|messages| - 1];
      assert messages == front + [last];
      ParentIDs(front) + if last.replyingTo != "" then [last.replyingTo] else []
  }

  method CollectParentIDs(messages: seq<Message>) returns (parentIDs: seq<string>)
    ensures parentIDs == ParentIDs(messages)
  {
    parentIDs := [];
    for i := 0 to |messages|
      invariant parentIDs == ParentIDs(messages[..i])
    {
      assert messages[..i + 1][..i] == messages[..i];
      if messages[i].replyingTo != "" {
        parentIDs := parentIDs + [messages[i].replyingTo];
      }
    }
    assert messages[..|messages|] == messages;
  }

  lemma ParentsListed(messages: seq<Message>)
    ensures AnyParent(messages) <==> ParentIDs(messages) != []
    ensures forall i :: 0 <= i < |messages| && messages[i].replyingTo != "" ==>
              messages[i].replyingTo in ParentIDs(messages)
  {
    var ids := ParentIDs(messages);
    if ids != [] {
      assert ids[0] in ids;
    }
    forall i | 0 <= i < |messages| && messages[i].replyingTo != ""
      ensures messages[i].replyingTo in ids
    {
      assert messages[i] in messages;
    }
  }

  /** Fills the sender of every reply's parent, in place, from one batched lookup. The
      lookup is by id alone: neither deletion nor the conversation narrows it. */
  method ResolveReplyParents(db: MessageStore, messages: array<Message>, readFails: bool)
    returns (ok: bool)
    modifies messages
    ensures ok <==> !readFails || !AnyParent(old(messages[..]))
    ensures messages[..] == if ok then Enriched(db, old(messages[..])) else old(messages[..])
    ensures ok ==>
              forall i :: 0 <= i < messages.Length && messages[i].replyingTo != "" && messages[i].replyingTo in db ==>
                messages[i] == old(messages[i]).(replyingToSender := db[messages[i].replyingTo].sender)
  {
    hide ParentIDs, NonBlank, Dedup;
    var parentIDs := CollectParentIDs(messages[..]);
    var unique := Distinct(parentIDs);
    ParentsListed(messages[..]);
    NonBlankAll(parentIDs);
    if unique == [] {
      return true;
    }
    if readFails {
      return false;
    }
    var senders := SendersOf(db, unique);
    FillSenders(db, messages, senders, unique);
    return true;
  }

  method FillSenders(
    db: MessageStore, messages: array<Message>, senders: map<string, string>, ghost unique: seq<string>)
    requires forall id :: id in senders <==> id != "" && id in unique && id in db && db[id].sender != ""
    requires forall id :: id in senders ==> senders[id] == db[id].sender
    requires forall i :: 0 <= i < messages.Length && messages[i].replyingTo != "" ==>
               messages[i].replyingTo in unique
    modifies messages
    ensures forall i :: 0 <= i < messages.Length ==> messages[i] == WithParentSender(db, old(messages[i]))
  {
    for i := 0 to messages.Length
      invariant forall j :: 0 <= j < i ==> messages[j] == WithParentSender(db, old(messages[j]))
      invariant forall j :: i <= j < messages.Length ==> messages[j] == old(messages[j])
    {
      var parent := messages[i].replyingTo;
      messages[i] := messages[i].(replyingToSender := if parent in senders then senders[parent] else "");
    }
  }

  /** The lookup's rows as a map from message id to sender, blanks left out. */
  method SendersOf(db: MessageStore, unique: seq<string>) returns (senders: map<string, string>)
    ensures forall id :: id in senders <==> id != "" && id in unique && id in db && db[id].sender != ""
    ensures forall id :: id in senders ==> senders[id] == db[id].sender
  {
    var raws := set id | id in unique && id in db;
    senders := map[];
    var pending := raws;
    while pending != {}
      invariant pending <= raws
      invariant forall id :: id in senders <==> id != "" && id in raws - pending && db[id].sender != ""
      invariant forall id :: id in senders ==> senders[id] == db[id].sender
    {
      var id :| id in pending;
      pending := pending - {id};
      if db[id].messageID != "" && db[id].sender != "" {
        senders := senders[id := db[id].sender];
      }
    }
  }

  // ------------------------------------------------------------------------- RepliesTo

  /** `newestFirst` lists every stored id once: the collection in the query's sort order. */
  ghost predicate Lists(db: MessageStore, newestFirst: seq<string>) {
    NoRepeats(newestFirst) && forall id :: id in newestFirst <==> id in db
  }

  predicate ReplyRow(db: MessageStore, conversationID: string, id: string) {
    id in db && db[id].conversationID == conversationID && !db[id].isDeleted && db[id].isReply
  }

  /** A query limit: 0 is unlimited and the sign is ignored, as the driver reads it. */
  function Limited(limit: int, ids: seq<string>): (r: seq<string>)
    ensures r <= ids
  {
    var n := if limit < 0 then -limit else limit;
    if n == 0 || n >= |ids| then ids else ids[..n]
  }

  /** The readable rows among `ids`, decoded, in order. */
  function Decoded(db: map<string, Document>, conversationID: string, ids: seq<string>): (r: seq<Message>)
    requires forall id :: id in ids ==> id in db
    ensures forall i :: 0 <= i < |r| ==> r[i].replyingToSender == ""
    ensures ids == [] ==> r == []
  {
    if ids == [] then []
    else
      var front, last := ids[..|ids| - 1], ids[|ids| - 1];
      assert ids == front + [last];
      var message := DecodeMessage(db[last], conversationID);
      Decoded(db, conversationID, front) + if message.Some? then [message.value] else []
  }

  lemma DecodedSnoc(db: map<string, Document>, conversationID: string, ids: seq<string>, id: string)
    requires forall x :: x in ids ==> x in db
    requires id in db
    ensures Decoded(db, conversationID, ids + [id]) ==
            Decoded(db, conversationID, ids) +
            (if DecodeMessage(db[id], conversationID).Some?
             then [DecodeMessage(db[id], conversationID).value] else [])
  {
    assert (ids + [id])[..|ids|] == ids;
  }

  lemma {:induction false} DecodedConcat(
    db: map<string, Document>, conversationID: string, a: seq<string>, b: seq<string>)
    requires forall x :: x in a ==> x in db
    requires forall x :: x in b ==> x in db
    ensures Decoded(db, conversationID, a + b) ==
            Decoded(db, conversationID, a) + Decoded(db, conversationID, b)
  {
    hide DecodeMessage;
    if b == [] {
      assert a + b == a;
    } else {
      var front, last := b[..|b| - 1], b[|b| - 1];
      assert b == front + [last];
      DecodedConcat(db, conversationID, a, front);
      assert a + b == (a + front) + [last];
      DecodedSnoc(db, conversationID, a + front, last);
      DecodedSnoc(db, conversationID, front, last);
    }
  }

  /** The message says what its stored row does. */
  ghost predicate Tells(db: map<string, Document>, m: Message) {
    && m.messageID in db
    && db[m.messageID].sender == m.senderEntityID && db[m.messageID].content == Some(m.content)
    && db[m.messageID].createdAt == m.createdAt && db[m.messageID].isReply == m.isReply
  }

  /** Every decoded message is that of one of the rows, and says what it does. */
  lemma {:induction false} DecodedTells(
    db: map<string, Document>, conversationID: string, ids: seq<string>, m: Message)
    requires forall id :: id in ids ==> id in db && db[id].messageID == id
    requires m in Decoded(db, conversationID, ids)
    ensures m.messageID in ids && Tells(db, m) && DecodeMessage(db[m.messageID], conversationID) == Some(m)
  {
    var front, last := ids[..|ids| - 1], ids[|ids| - 1];
    if m in Decoded(db, conversationID, front) {
      DecodedTells(db, conversationID, front, m);
    }
  }

  /** Every readable row is decoded. */
  lemma {:induction false} ReadableIsDecoded(
    db: map<string, Document>, conversationID: string, ids: seq<string>, id: string)
    requires forall x :: x in ids ==> x in db
    requires id in ids && DecodeMessage(db[id], conversationID).Some?
    ensures DecodeMessage(db[id], conversationID).value in Decoded(db, conversationID, ids)
  {
    hide DecodeMessage;
    var front, last := ids[..|ids| - 1], ids[|ids| - 1];
    if id != last {
      ReadableIsDecoded(db, conversationID, front, id);
    }
  }

  /** The newest `limit` undeleted reply rows, newest first. */
  function ReplyWindow(
    db: MessageStore, newestFirst: seq<string>, conversationID: string, limit: int): (ids: seq<string>)
    ensures forall i :: 0 <= i < |ids| ==> ReplyRow(db, conversationID, ids[i])
  {
    Limited(limit, ReplyRows(db, newestFirst, conversationID))
  }

  function ReplyRows(db: MessageStore, ids: seq<string>, conversationID: string): (r: seq<string>)
    ensures forall i :: 0 <= i < |r| ==> ReplyRow(db, conversationID, r[i])
  {
    if ids == [] then []
    else (if ReplyRow(db, conversationID, ids[0]) then [ids[0]] else []) +
         ReplyRows(db, ids[1..], conversationID)
  }

  /** One newest-first query, decoded and turned oldest first. */
  method FindMessages(db: MessageStore, raws: seq<string>, conversationID: string)
    returns (messages: seq<Message>)
    requires forall id :: id in raws ==> id in db
    ensures messages == Decoded(db, conversationID, Reverse(raws))
    ensures forall m :: m in messages ==>
              && m.messageID in raws
              && db[m.messageID].sender == m.senderEntityID && db[m.messageID].content == Some(m.content)
              && db[m.messageID].createdAt == m.createdAt && db[m.messageID].isReply == m.isReply
  {
    messages := [];
    ghost var done := [];
    var i := |raws| - 1;
    while i >= 0
      invariant -1 <= i < |raws|
      invariant forall id :: id in done ==> id in db
      invariant |done| == |raws| - 1 - i
      invariant forall k :: 0 <= k < |done| ==> done[k] == raws[|raws| - 1 - k]
      invariant messages == Decoded(db, conversationID, done)
    {
      var message := DecodeMessage(db[raws[i]], conversationID);
      DecodedSnoc(db, conversationID, done, raws[i]);
      done := done + [raws[i]];
      if message.Some? {
        messages := messages + [message.value];
      }
      i := i - 1;
    }
    assert done == Reverse(raws);
    forall m | m in messages
      ensures m.messageID in raws && Tells(db, m)
    {
      DecodedTells(db, conversationID, done, m);
    }
  }

  /** Which of `messageIDs` were written by `entityID`: the authorship test is in the query.
      With nothing to ask for there is no read, so nothing to fail. */
  method MessagesAuthoredBy(db: MessageStore, messageIDs: seq<string>, entityID: string, readFails: bool)
    returns (r: Result<set<string>, StoreError>)
    ensures r.Failure? <==> readFails && exists id :: id in messageIDs && id != ""
    ensures r.Success? ==>
              forall id :: id in r.value <==>
                           id != "" && id in messageIDs && id in db && db[id].sender == entityID
  {
    var own: set<string> := {};
    var unique := Distinct(messageIDs);
    assert forall id :: id in unique <==> id != "" && id in messageIDs;
    if unique == [] {
      return Success(own);
    }
    if readFails {
      assert unique[0] in unique;
      return Failure(StoreError);
    }
    var raws := set id | id in unique && id in db && db[id].sender == entityID;
    while raws != {}
      invariant forall id :: id in raws ==> id in messageIDs && id in db && db[id].sender == entityID
      invariant forall id :: id in own ==>
                  id != "" && id in messageIDs && id in db && db[id].sender == entityID
      invariant forall id ::
                  id != "" && id in messageIDs && id in db && db[id].sender == entityID ==> id in own || id in raws
    {
      var id :| id in raws;
      raws := raws - {id};
      if db[id].messageID != "" {
        own := own + {id};
      }
    }
    return Success(own);
  }

  /** The messages whose parent is in `own`, in order. */
  function RepliesToAny(messages: seq<Message>, own: set<string>): seq<Message> {
    if messages == [] then []
    else
      var last := messages[|messages| - 1];
      RepliesToAny(messages[..|messages| - 1], own) +
      if last.replyingTo != "" && last.replyingTo in own then [last] else []
  }

  method SelectRepliesTo(messages: seq<Message>, own: set<string>) returns (kept: seq<Message>)
    ensures kept == RepliesToAny(messages, own)
  {
    kept := [];
    for i := 0 to |messages|
      invariant kept == RepliesToAny(messages[..i], own)
    {
      assert messages[..i + 1][..i] == messages[..i];
      if !(messages[i].replyingTo == "" || messages[i].replyingTo !in own) {
        kept := kept + [messages[i]];
      }
    }
    assert messages[..|messages|] == messages;
  }

  /** The messages whose parent was written by `entityID`, as enrichment names it. */
  function WithParentFrom(messages: seq<Message>, entityID: string): seq<Message> {
    if messages == [] then []
    else
      var last := messages[|messages| - 1];
      WithParentFrom(messages[..|messages| - 1], entityID) +
      if last.replyingToSender == entityID then [last] else []
  }

  /** The readable rows of the window, oldest first. */
  function ReplyPage(
    db: MessageStore, newestFirst: seq<string>, conversationID: string, limit: int): seq<Message>
  {
    Decoded(db, conversationID, Reverse(ReplyWindow(db, newestFirst, conversationID, limit)))
  }

  /** What `RepliesTo` is for: the rows of the reply window, oldest first and enriched as
      any transcript read enriches them, whose parent was written by `entityID`. */
  ghost function RepliesToEntity(
    db: MessageStore, newestFirst: seq<string>, conversationID: string, entityID: string, limit: int)
    : seq<Message>
  {
    WithParentFrom(Enriched(db, ReplyPage(db, newestFirst, conversationID, limit)), entityID)
  }

  lemma EmptyPage(db: MessageStore, entityID: string)
    ensures !AnyParent([]) && WithParentFrom(Enriched(db, []), entityID) == []
  {
  }

  /** The query answers exactly that, filling in the sender it knows by construction. It
      fails when the page cannot be read, or when the page names a parent and the
      authorship of the parents cannot be read. */
  method RepliesTo(
    db: MessageStore, newestFirst: seq<string>, conversationID: string, entityID: string, limit: int,
    pageFails: bool, authorsFail: bool)
    returns (r: Result<seq<Message>, StoreError>)
    requires Lists(db, newestFirst)
    ensures entityID == "" ==> r == Success([])
    ensures entityID != "" && r.Success? ==>
              r.value == RepliesToEntity(db, newestFirst, conversationID, entityID, limit)
    ensures r.Success? ==>
              forall m :: m in r.value ==>
                && m.messageID in db && db[m.messageID].conversationID == conversationID
                && !db[m.messageID].isDeleted && db[m.messageID].isReply && m.isReply
                && db[m.messageID].sender == m.senderEntityID && db[m.messageID].content == Some(m.content)
                && db[m.messageID].createdAt == m.createdAt
                && m.replyingTo in db && db[m.replyingTo].sender == m.replyingToSender == entityID
    ensures r.Success? && limit != 0 ==> |r.value| <= if limit < 0 then -limit else limit
    ensures r.Failure? <==>
              entityID != "" &&
              (pageFails ||
               (authorsFail && AnyParent(ReplyPage(db, newestFirst, conversationID, limit))))
  {
    if entityID == "" {
      return Success([]);
    }
    if pageFails {
      return Failure(StoreError);
    }
    hide ReplyWindow, Decoded, ParentIDs, RepliesToAny, WithParentFrom, Mark, Enriched, DecodeMessage, AnyParent;
    var candidates := FindMessages(db, ReplyWindow(db, newestFirst, conversationID, limit), conversationID);
    ParentsListed(candidates);
    if |candidates| == 0 {
      EmptyPage(db, entityID);
      return Success([]);
    }
    var parentIDs := CollectParentIDs(candidates);
    var authored := MessagesAuthoredBy(db, parentIDs, entityID, authorsFail);
    if authored.Failure? {
      return Failure(StoreError);
    }
    var own := authored.value;
    var selected := SelectRepliesTo(candidates, own);
    var replies := MarkSender(entityID, selected);
    SelectionIsEnrichment(db, candidates, own, entityID);
    RepliesAllTell(db, newestFirst, conversationID, entityID, limit);
    RepliesAreFew(db, newestFirst, conversationID, entityID, limit);
    return Success(replies);
  }

  /** The message is one the query is for, and says what its stored row does. */
  ghost predicate ToldReply(db: MessageStore, conversationID: string, entityID: string, m: Message) {
    && m.messageID in db && db[m.messageID].conversationID == conversationID
    && !db[m.messageID].isDeleted && db[m.messageID].isReply && Tells(db, m)
    && m.replyingTo in db && db[m.replyingTo].sender == m.replyingToSender == entityID
  }

  lemma {:induction false} FromIsFilter(messages: seq<Message>, entityID: string, m: Message)
    ensures m in WithParentFrom(messages, entityID) <==> m in messages && m.replyingToSender == entityID
    ensures |WithParentFrom(messages, entityID)| <= |messages|
  {
    if messages != [] {
      FromIsFilter(messages[..|messages| - 1], entityID, m);
      assert messages == messages[..|messages| - 1] + [messages[|messages| - 1]];
    }
  }

  lemma RepliesTell(
    db: MessageStore, newestFirst: seq<string>, conversationID: string, entityID: string, limit: int, m: Message)
    requires entityID != "" && m in RepliesToEntity(db, newestFirst, conversationID, entityID, limit)
    ensures ToldReply(db, conversationID, entityID, m)
  {
    hide Decoded, ReplyWindow, DecodeMessage, WithParentFrom, Enriched;
    var page, window := ReplyPage(db, newestFirst, conversationID, limit),
                        ReplyWindow(db, newestFirst, conversationID, limit);
    FromIsFilter(Enriched(db, page), entityID, m);
    EnrichedPointwise(db, page);
    var i :| 0 <= i < |page| && Enriched(db, page)[i] == m;
    assert page[i] in page;
    DecodedTells(db, conversationID, Reverse(window), page[i]);
    var k :| 0 <= k < |window| && Reverse(window)[k] == m.messageID;
    assert ReplyRow(db, conversationID, window[|window| - 1 - k]);
  }

  lemma RepliesAllTell(
    db: MessageStore, newestFirst: seq<string>, conversationID: string, entityID: string, limit: int)
    requires entityID != ""
    ensures forall m :: m in RepliesToEntity(db, newestFirst, conversationID, entityID, limit) ==>
              ToldReply(db, conversationID, entityID, m)
  {
    hide RepliesToEntity, ToldReply;
    forall m | m in RepliesToEntity(db, newestFirst, conversationID, entityID, limit)
      ensures ToldReply(db, conversationID, entityID, m)
    {
      RepliesTell(db, newestFirst, conversationID, entityID, limit, m);
    }
  }

  lemma {:induction false} DecodedAreFewer(db: map<string, Document>, conversationID: string, ids: seq<string>)
    requires forall id :: id in ids ==> id in db
    ensures |Decoded(db, conversationID, ids)| <= |ids|
  {
    if ids != [] {
      DecodedAreFewer(db, conversationID, ids[..|ids| - 1]);
    }
  }

  lemma RepliesAreFew(
    db: MessageStore, newestFirst: seq<string>, conversationID: string, entityID: string, limit: int)
    ensures limit != 0 ==>
              |RepliesToEntity(db, newestFirst, conversationID, entityID, limit)| <= if limit < 0 then -limit else limit
  {
    hide Decoded, WithParentFrom, Enriched, ReplyRows;
    var page := ReplyPage(db, newestFirst, conversationID, limit);
    DecodedAreFewer(db, conversationID, Reverse(ReplyWindow(db, newestFirst, conversationID, limit)));
    FromIsFilter(Enriched(db, page), entityID,
                 Message("", "", "", "", 0, "", false, "", None, ""));
  }

  function Mark(entityID: string, messages: seq<Message>): (r: seq<Message>)
    ensures |r| == |messages|
    ensures forall i :: 0 <= i < |r| ==> r[i] == messages[i].(replyingToSender := entityID)
  {
    seq(|messages|, i requires 0 <= i < |messages| => messages[i].(replyingToSender := entityID))
  }

  method MarkSender(entityID: string, selected: seq<Message>) returns (replies: seq<Message>)
    ensures replies == Mark(entityID, selected)
  {
    replies := [];
    for i := 0 to |selected|
      invariant replies == Mark(entityID, selected[..i])
    {
      replies := replies + [selected[i].(replyingToSender := entityID)];
    }
    assert selected[..|selected|] == selected;
  }

  /** Selecting by "the parent is one of mine" and then naming myself gives the same rows
      as enriching everything and keeping the rows whose parent sender is me. */
  lemma SelectionIsEnrichment(db: MessageStore, messages: seq<Message>, own: set<string>, entityID: string)
    requires entityID != ""
    requires forall i :: 0 <= i < |messages| ==> messages[i].replyingToSender == ""
    requires forall id :: id in own <==>
               id != "" && id in ParentIDs(messages) && id in db && db[id].sender == entityID
    ensures Mark(entityID, RepliesToAny(messages, own)) == WithParentFrom(Enriched(db, messages), entityID)
  {
    EnrichedPointwise(db, messages);
    forall i | 0 <= i < |messages|
      ensures messages[i].replyingTo != "" && messages[i].replyingTo in own <==>
              SenderOf(db, messages[i].replyingTo) == entityID
    {
      assert messages[i] in messages;
      assert messages[i].replyingTo != "" ==> messages[i].replyingTo in ParentIDs(messages);
    }
    SelectionOfPrefix(db, messages, Enriched(db, messages), own, entityID);
  }

  lemma {:induction false} SelectionOfPrefix(
    db: MessageStore, messages: seq<Message>, enriched: seq<Message>, own: set<string>, entityID: string)
    requires |enriched| == |messages|
    requires forall i :: 0 <= i < |messages| ==> enriched[i] == WithParentSender(db, messages[i])
    requires forall i :: 0 <= i < |messages| ==>
               (messages[i].replyingTo != "" && messages[i].replyingTo in own <==>
                SenderOf(db, messages[i].replyingTo) == entityID)
    ensures Mark(entityID, RepliesToAny(messages, own)) == WithParentFrom(enriched, entityID)
  {
    if messages != [] {
      var n := |messages| - 1;
      SelectionOfPrefix(db, messages[..n], enriched[..n], own, entityID);
    }
  }

  // ----------------------------------------------------- which rows, and in which order

  /** The undeleted reply rows of a conversation among the ids. */
  ghost function RepliesAmong(db: MessageStore, conversationID: string, ids: seq<string>): nat {
    if ids == [] then 0
    else
      var last := ids[|ids| - 1];
      RepliesAmong(db, conversationID, ids[..|ids| - 1])
      + if last in db && db[last].conversationID == conversationID && !db[last].isDeleted && db[last].isReply
        then 1 else 0
  }

  lemma {:induction false} RowsConcat(db: MessageStore, a: seq<string>, b: seq<string>, conversationID: string)
    ensures ReplyRows(db, a + b, conversationID)
            == ReplyRows(db, a, conversationID) + ReplyRows(db, b, conversationID)
  {
    if a == [] {
      assert a + b == b;
    } else {
      assert (a + b)[1..] == a[1..] + b;
      RowsConcat(db, a[1..], b, conversationID);
    }
  }

  lemma {:induction false} RowsCounted(db: MessageStore, ids: seq<string>, conversationID: string)
    ensures |ReplyRows(db, ids, conversationID)| == RepliesAmong(db, conversationID, ids)
    ensures forall id :: id in ReplyRows(db, ids, conversationID) ==> id in ids
  {
    if ids != [] {
      var front, last := ids[..|ids| - 1], ids[|ids| - 1];
      RowsCounted(db, front, conversationID);
      assert ids == front + [last];
      RowsConcat(db, front, [last], conversationID);
      assert [last][1..] == [];
    }
  }

  lemma PrefixHas(before: seq<string>, x: string, after: seq<string>, n: nat)
    requires x !in before && n <= |before| + 1 + |after|
    ensures x in (before + [x] + after)[..n] <==> |before| < n
  {
    var all := before + [x] + after;
    assert all[|before|] == x && all[..|before|] == before;
    if |before| < n {
      assert all[..n][|before|] == x;
    } else {
      assert all[..n] == before[..n];
    }
  }

  lemma RowsAround(db: MessageStore, newestFirst: seq<string>, conversationID: string, i: nat)
    requires NoRepeats(newestFirst) && i < |newestFirst| && ReplyRow(db, conversationID, newestFirst[i])
    ensures var before := ReplyRows(db, newestFirst[..i], conversationID);
            && newestFirst[i] !in before
            && ReplyRows(db, newestFirst, conversationID)
               == before + [newestFirst[i]] + ReplyRows(db, newestFirst[i + 1..], conversationID)
  {
    var a, x, b := newestFirst[..i], newestFirst[i], newestFirst[i + 1..];
    assert newestFirst == a + ([x] + b);
    assert x !in a;
    RowsConcat(db, a, [x] + b, conversationID);
    RowsCounted(db, a, conversationID);
    assert ([x] + b)[1..] == b;
  }

  /** The window holds exactly the undeleted reply rows of the conversation that have fewer
      than `limit` newer ones, all of them when the limit is zero. */
  lemma WindowMeans(db: MessageStore, newestFirst: seq<string>, conversationID: string, limit: int, i: nat)
    requires Lists(db, newestFirst) && i < |newestFirst|
    ensures newestFirst[i] in db
    ensures var row := db[newestFirst[i]];
            newestFirst[i] in ReplyWindow(db, newestFirst, conversationID, limit) <==>
            && row.conversationID == conversationID && !row.isDeleted && row.isReply
            && (limit == 0
                || RepliesAmong(db, conversationID, newestFirst[..i]) < if limit < 0 then -limit else limit)
  {
    var x, rows := newestFirst[i], ReplyRows(db, newestFirst, conversationID);
    var window := ReplyWindow(db, newestFirst, conversationID, limit);
    assert window == rows[..|window|];
    assert x in newestFirst;
    if ReplyRow(db, conversationID, x) {
      RowsAround(db, newestFirst, conversationID, i);
      RowsCounted(db, newestFirst[..i], conversationID);
      hide ReplyRows, RepliesAmong, NoRepeats;
      PrefixHas(ReplyRows(db, newestFirst[..i], conversationID), x,
                ReplyRows(db, newestFirst[i + 1..], conversationID), |window|);
    }
  }

  lemma ReverseHas(s: seq<string>, x: string)
    ensures x in Reverse(s) <==> x in s
  {
    if x in s {
      var k :| 0 <= k < |s| && s[k] == x;
      assert Reverse(s)[|s| - 1 - k] == x;
    }
    if x in Reverse(s) {
      var k :| 0 <= k < |s| && Reverse(s)[k] == x;
      assert s[|s| - 1 - k] == x;
    }
  }

  /** An answered row is in the window, and its parent was written by the entity. */
  lemma AnsweredRow(
    db: MessageStore, newestFirst: seq<string>, conversationID: string, entityID: string, limit: int, m: Message)
    requires entityID != "" && m in RepliesToEntity(db, newestFirst, conversationID, entityID, limit)
    ensures m.messageID in ReplyWindow(db, newestFirst, conversationID, limit) && m.messageID in db
    ensures DecodeMessage(db[m.messageID], conversationID).Some?
    ensures SenderOf(db, MessageParent(db[m.messageID])) == entityID
  {
    hide Decoded, ReplyWindow, WithParentFrom, Enriched, MessageParent;
    var page := ReplyPage(db, newestFirst, conversationID, limit);
    var window := ReplyWindow(db, newestFirst, conversationID, limit);
    FromIsFilter(Enriched(db, page), entityID, m);
    EnrichedPointwise(db, page);
    var i :| 0 <= i < |page| && Enriched(db, page)[i] == m;
    assert page[i] in page;
    DecodedTells(db, conversationID, Reverse(window), page[i]);
    ReverseHas(window, m.messageID);
  }

  lemma RowIsAnswered(
    db: MessageStore, newestFirst: seq<string>, conversationID: string, entityID: string, limit: int, id: string)
    requires id in ReplyWindow(db, newestFirst, conversationID, limit) && id in db
    requires DecodeMessage(db[id], conversationID).Some? && SenderOf(db, MessageParent(db[id])) == entityID
    ensures exists m :: m in RepliesToEntity(db, newestFirst, conversationID, entityID, limit) && m.messageID == id
  {
    hide Decoded, ReplyWindow, WithParentFrom, Enriched, MessageParent;
    var page := ReplyPage(db, newestFirst, conversationID, limit);
    var window := ReplyWindow(db, newestFirst, conversationID, limit);
    var m := DecodeMessage(db[id], conversationID).value;
    ReverseHas(window, id);
    ReadableIsDecoded(db, conversationID, Reverse(window), id);
    EnrichedPointwise(db, page);
    var i :| 0 <= i < |page| && page[i] == m;
    assert Enriched(db, page)[i] in Enriched(db, page);
    FromIsFilter(Enriched(db, page), entityID, Enriched(db, page)[i]);
  }

  /** Who is answered: exactly the readable rows of the window whose parent, read from either
      stored shape, was written by the entity. */
  lemma RepliesToMeans(
    db: MessageStore, newestFirst: seq<string>, conversationID: string, entityID: string, limit: int, id: string)
    requires id in db && entityID != ""
    ensures (exists m :: m in RepliesToEntity(db, newestFirst, conversationID, entityID, limit) && m.messageID == id)
            <==>
            && id in ReplyWindow(db, newestFirst, conversationID, limit)
            && id != "" && db[id].sender != "" && db[id].content.Some?
            && MessageParent(db[id]) != "" && MessageParent(db[id]) in db
            && db[MessageParent(db[id])].sender == entityID
  {
    hide ReplyWindow, RepliesToEntity, MessageParent, DecodeMessage;
    if m :| m in RepliesToEntity(db, newestFirst, conversationID, entityID, limit) && m.messageID == id {
      AnsweredRow(db, newestFirst, conversationID, entityID, limit, m);
    }
    if id in ReplyWindow(db, newestFirst, conversationID, limit)
       && DecodeMessage(db[id], conversationID).Some? && SenderOf(db, MessageParent(db[id])) == entityID {
      RowIsAnswered(db, newestFirst, conversationID, entityID, limit, id);
    }
  }

  /** In the sort order of the collection, y is newer than x. */
  ghost predicate Newer(newestFirst: seq<string>, x: string, y: string) {
    forall i, j :: 0 <= i < |newestFirst| && 0 <= j < |newestFirst| && newestFirst[i] == x && newestFirst[j] == y ==>
      j < i
  }

  ghost predicate OldestFirst(newestFirst: seq<string>, messages: seq<Message>) {
    forall k, l :: 0 <= k < l < |messages| ==> Newer(newestFirst, messages[k].messageID, messages[l].messageID)
  }

  lemma {:induction false} RowsNewestFirst(
    db: MessageStore, newestFirst: seq<string>, conversationID: string, k: nat, l: nat)
    requires NoRepeats(newestFirst) && k < l < |ReplyRows(db, newestFirst, conversationID)|
    ensures var rows := ReplyRows(db, newestFirst, conversationID); Newer(newestFirst, rows[l], rows[k])
  {
    var rows, rest := ReplyRows(db, newestFirst, conversationID), newestFirst[1..];
    RowsCounted(db, rest, conversationID);
    var d := if ReplyRow(db, conversationID, newestFirst[0]) then 1 else 0;
    assert rows[l] == ReplyRows(db, rest, conversationID)[l - d];
    hide ReplyRows;
    assert rows[l] in rest;
    if k >= d {
      RowsNewestFirst(db, rest, conversationID, k - d, l - d);
      assert rows[k] in rest;
    }
    forall i, j | 0 <= i < |newestFirst| && 0 <= j < |newestFirst| && newestFirst[i] == rows[l]
                  && newestFirst[j] == rows[k]
      ensures j < i
    {
      assert i > 0 && rest[i - 1] == rows[l];
      assert k >= d && j > 0 ==> rest[j - 1] == rows[k];
    }
  }

  lemma {:induction false} DecodedInOrder(
    db: MessageStore, newestFirst: seq<string>, conversationID: string, ids: seq<string>)
    requires forall id :: id in ids ==> id in db
    requires forall k, l :: 0 <= k < l < |ids| ==> Newer(newestFirst, ids[k], ids[l])
    ensures OldestFirst(newestFirst, Decoded(db, conversationID, ids))
  {
    hide Newer, DecodeMessage;
    if ids != [] {
      var front, last := ids[..|ids| - 1], ids[|ids| - 1];
      DecodedInOrder(db, newestFirst, conversationID, front);
      var older := Decoded(db, conversationID, front);
      forall k | 0 <= k < |older| ensures Newer(newestFirst, older[k].messageID, last) {
        assert older[k] in older;
        DecodedTells(db, conversationID, front, older[k]);
      }
    }
  }

  lemma {:induction false} FromInOrder(newestFirst: seq<string>, messages: seq<Message>, entityID: string)
    requires OldestFirst(newestFirst, messages)
    ensures OldestFirst(newestFirst, WithParentFrom(messages, entityID))
  {
    hide Newer;
    if messages != [] {
      var front, last := messages[..|messages| - 1], messages[|messages| - 1];
      FromInOrder(newestFirst, front, entityID);
      var older := WithParentFrom(front, entityID);
      forall k | 0 <= k < |older| ensures Newer(newestFirst, older[k].messageID, last.messageID) {
        FromIsFilter(front, entityID, older[k]);
        var i :| 0 <= i < |front| && front[i] == older[k];
        assert messages[i] == front[i];
      }
    }
  }

  /** The answer is oldest first. */
  lemma RepliesOldestFirst(
    db: MessageStore, newestFirst: seq<string>, conversationID: string, entityID: string, limit: int)
    requires Lists(db, newestFirst)
    ensures OldestFirst(newestFirst, RepliesToEntity(db, newestFirst, conversationID, entityID, limit))
  {
    var rows, window := ReplyRows(db, newestFirst, conversationID),
                        ReplyWindow(db, newestFirst, conversationID, limit);
    var page := ReplyPage(db, newestFirst, conversationID, limit);
    assert window <= rows;
    hide ReplyRows, ReplyWindow, Decoded, WithParentFrom, Enriched, Newer, NoRepeats;
    var ids := Reverse(window);
    forall k, l | 0 <= k < l < |ids| ensures Newer(newestFirst, ids[k], ids[l]) {
      RowsNewestFirst(db, newestFirst, conversationID, |ids| - 1 - l, |ids| - 1 - k);
    }
    forall id | id in ids ensures id in db {
      var k :| 0 <= k < |ids| && ids[k] == id;
      assert ReplyRow(db, conversationID, window[|ids| - 1 - k]);
    }
    DecodedInOrder(db, newestFirst, conversationID, ids);
    EnrichedPointwise(db, page);
    FromInOrder(newestFirst, Enriched(db, page), entityID);
  }
}
