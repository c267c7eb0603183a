/** The reply lineage of a message: `ReplyThread` walks `replyingTo` upward in segments, two
    single-shape graph traversals a round trip, and stitches them into one chain. The
    reference is a walk of one hop at a time through the live messages of one conversation. */
module ReplyLineage {
  import opened Collections
  import opened Messages

  // ------------------------------------------------------------------ the reference walk

  predicate Live(db: MessageStore, conversationID: string, id: string) {
    id in db && db[id].conversationID == conversationID && !db[id].isDeleted
  }

  function LiveMessages(db: MessageStore, conversationID: string): (live: map<string, Document>)
    ensures forall id :: id in live <==> id in db && db[id].conversationID == conversationID && !db[id].isDeleted
    ensures forall id :: id in live ==> id in db && live[id] == db[id]
  {
    map id | id in db && Live(db, conversationID, id) :: db[id]
  }

  /** The ids followed, nearest first, and the parent id the walk stopped at. */
  datatype Walk = Walk(ids: seq<string>, next: string)

  /** Follows one message parent at a time through `found`, for at most `budget` hops. */
  function Chain(found: map<string, Document>, parent: string, budget: nat): (w: Walk)
    ensures |w.ids| <= budget
    ensures forall i :: 0 <= i < |w.ids| ==> w.ids[i] in found && w.ids[i] != ""
    decreases budget
  {
    if parent == "" || budget == 0 || parent !in found then Walk([], parent)
    else
      var rest := Chain(found, MessageParent(found[parent]), budget - 1);
      Walk([parent] + rest.ids, rest.next)
  }

  /** One hop of the walk. */
  lemma ChainStep(found: map<string, Document>, parent: string, budget: nat)
    requires parent != "" && budget > 0 && parent in found
    ensures var rest := Chain(found, MessageParent(found[parent]), budget - 1);
            Chain(found, parent, budget) == Walk([parent] + rest.ids, rest.next)
  {
  }

  lemma ChainHead(found: map<string, Document>, parent: string, budget: nat)
    ensures var w := Chain(found, parent, budget);
            if parent == "" || budget == 0 || parent !in found then w == Walk([], parent)
            else w.ids != [] && w.ids[0] == parent
  {
  }

  /** Why a walk stops: at a root, at a missing message, or at the end of its budget. */
  lemma {:induction false} ChainStops(found: map<string, Document>, parent: string, budget: nat)
    ensures var w := Chain(found, parent, budget);
            w.next == "" || w.next !in found || |w.ids| == budget
    decreases budget
  {
    if parent != "" && budget > 0 && parent in found {
      ChainStops(found, MessageParent(found[parent]), budget - 1);
    }
  }

  /** How the chain is cut never changes the answer: following any part of the live
      messages and then resuming from where that stopped is following all of them. */
  lemma {:induction false} ChainResumes(
    live: map<string, Document>, found: map<string, Document>, parent: string, budget: nat)
    requires forall id :: id in found ==> id in live && found[id] == live[id]
    ensures var part := Chain(found, parent, budget);
            var rest := Chain(live, part.next, budget - |part.ids|);
            Chain(live, parent, budget) == Walk(part.ids + rest.ids, rest.next)
    decreases budget
  {
    hide Chain, MessageParent;
    ChainHead(found, parent, budget);
    if parent == "" || budget == 0 || parent !in found {
      assert [] + Chain(live, parent, budget).ids == Chain(live, parent, budget).ids;
    } else {
      var p := MessageParent(found[parent]);
      var part, tail := Chain(found, parent, budget), Chain(found, p, budget - 1);
      var rest := Chain(live, part.next, budget - |part.ids|);
      ChainResumes(live, found, p, budget - 1);
      ChainStep(found, parent, budget);
      ChainStep(live, parent, budget);
      assert budget - |part.ids| == budget - 1 - |tail.ids|;
      assert Chain(live, p, budget - 1) == Walk(tail.ids + rest.ids, rest.next);
      assert [parent] + (tail.ids + rest.ids) == part.ids + rest.ids;
    }
  }

  /** Consecutive ids of a walk are linked, and the last one's parent is where it stops. */
  lemma {:induction false} ChainLinks(found: map<string, Document>, parent: string, budget: nat, i: nat)
    requires i < |Chain(found, parent, budget).ids|
    ensures var w := Chain(found, parent, budget);
            MessageParent(found[w.ids[i]]) == if i + 1 < |w.ids| then w.ids[i + 1] else w.next
    decreases budget
  {
    var p := MessageParent(found[parent]);
    ChainStep(found, parent, budget);
    if i == 0 {
      ChainHead(found, p, budget - 1);
    } else {
      ChainLinks(found, p, budget - 1, i - 1);
    }
  }

  /** The walk never leaves the conversation and never shows a deleted message. */
  lemma WalkStaysInConversation(db: MessageStore, conversationID: string, parent: string, budget: nat)
    ensures forall id :: id in Chain(LiveMessages(db, conversationID), parent, budget).ids ==>
              id in db && db[id].conversationID == conversationID && !db[id].isDeleted
  {
    var w := Chain(LiveMessages(db, conversationID), parent, budget);
    forall id | id in w.ids
      ensures id in db && db[id].conversationID == conversationID && !db[id].isDeleted
    {
      var i :| 0 <= i < |w.ids| && w.ids[i] == id;
    }
  }

  // ----------------------------------------------------------------- one round trip

  datatype Shape = ViaObject | ViaString

  /** The one field path a `$graphLookup` follows, read from one row. */
  function ConnectFrom(d: Document, shape: Shape): Option<string> {
    match (shape, d.replyingTo)
    case (ViaObject, Doc(_, id)) => id
    case (ViaString, Text(s)) => Some(s)
    case _ => None
  }

  /** `$ifNull: ["$replyingTo.id", "$replyingTo"]`, as far as it can equal a message id. */
  function StartWith(d: Document): set<string> {
    match d.replyingTo
    case Doc(_, Some(id)) => {id}
    case Text(s) => {s}
    case _ => {}
  }

  function Matches(db: MessageStore, conversationID: string, values: set<string>): (hit: set<string>)
    ensures forall id :: id in hit <==> id in values && Live(db, conversationID, id)
  {
    set id | id in values && Live(db, conversationID, id)
  }

  function Connected(db: MessageStore, shape: Shape, hit: set<string>): (next: set<string>)
    requires forall id :: id in hit ==> id in db
    ensures forall id :: id in hit && ConnectFrom(db[id], shape).Some? ==> ConnectFrom(db[id], shape).value in next
  {
    set id | id in hit && ConnectFrom(db[id], shape).Some? :: ConnectFrom(db[id], shape).value
  }

  /** Bounded reachability along one shape, pinned to live rows of one conversation:
      level 0 matches `values`, and each further level connects from the rows just matched. */
  function GraphLookup(
    db: MessageStore, conversationID: string, shape: Shape, values: set<string>, maxDepth: nat): (ids: set<string>)
    ensures forall id :: id in ids ==> Live(db, conversationID, id)
    decreases maxDepth
  {
    var hit := Matches(db, conversationID, values);
    if maxDepth == 0 then hit
    else hit + GraphLookup(db, conversationID, shape, Connected(db, shape, hit), maxDepth - 1)
  }

  /** What one traversal of the pipeline returns, given the matched start row. */
  function Traversal(db: MessageStore, conversationID: string, startID: string, budget: int, shape: Shape)
    : (ids: set<string>)
    ensures forall id :: id in ids ==> Live(db, conversationID, id)
  {
    if Live(db, conversationID, startID) && budget > 1
    then GraphLookup(db, conversationID, shape, StartWith(db[startID]), budget - 2)
    else {}
  }

  /** The ids one round trip brings back. */
  function SegmentIDs(db: MessageStore, conversationID: string, startID: string, budget: int)
    : (ids: set<string>)
    ensures forall id :: id in ids ==> Live(db, conversationID, id) && id != ""
  {
    (Traversal(db, conversationID, startID, budget, ViaObject) +
     Traversal(db, conversationID, startID, budget, ViaString) +
     (if Live(db, conversationID, startID) then {startID} else {})) - {""}
  }

  function Segment(db: MessageStore, conversationID: string, startID: string, budget: int)
    : (found: map<string, Document>)
    ensures forall id :: id in found <==> id in SegmentIDs(db, conversationID, startID, budget)
    ensures forall id :: id in found ==> found[id] == db[id]
  {
    map id | id in SegmentIDs(db, conversationID, startID, budget) :: db[id]
  }

  /** Adds the entries of one embedded result array, in whatever order they come. */
  method AddEntries(db: MessageStore, entries: set<string>, before: map<string, Document>)
    returns (found: map<string, Document>)
    requires forall id :: id in entries ==> id in db
    requires forall id :: id in before ==> id in db && before[id] == db[id]
    ensures forall id :: id in found <==> id in before || (id in entries && id != "")
    ensures forall id :: id in found ==> id in db && found[id] == db[id]
  {
    found := before;
    var pending := entries;
    while pending != {}
      invariant pending <= entries
      invariant forall id :: id in found <==> id in before || (id in entries - pending && id != "")
      invariant forall id :: id in found ==> id in db && found[id] == db[id]
    {
      var id :| id in pending;
      pending := pending - {id};
      if db[id].messageID != "" {
        found := found[id := db[id]];
      }
    }
  }

  method AncestorSegment(db: MessageStore, conversationID: string, startID: string, budget: int)
    returns (found: map<string, Document>)
    ensures found == Segment(db, conversationID, startID, budget)
  {
    hide GraphLookup, StartWith, Traversal;
    var viaObject := Traversal(db, conversationID, startID, budget, ViaObject);
    var viaString := Traversal(db, conversationID, startID, budget, ViaString);
    found := AddEntries(db, viaObject, map[]);
    found := AddEntries(db, viaString, found);
    if Live(db, conversationID, startID) && db[startID].messageID != "" {
      found := found[startID := db[startID]];
    }
    assert forall id :: id in found <==> id in SegmentIDs(db, conversationID, startID, budget);
  }

  /** Where the loop below stands: `done` followed, the rest of the walk from `next` ahead. */
  ghost predicate Following(
    found: map<string, Document>, parentID: string, budget: nat, done: seq<string>, next: string)
  {
    && |done| <= budget
    && var rest := Chain(found, next, budget - |done|);
       Chain(found, parentID, budget) == Walk(done + rest.ids, rest.next)
  }

  lemma FollowingStep(found: map<string, Document>, parentID: string, budget: nat, done: seq<string>, next: string)
    requires Following(found, parentID, budget, done, next)
    requires next != "" && |done| < budget && next in found
    ensures Following(found, parentID, budget, done + [next], MessageParent(found[next]))
  {
    hide Chain, MessageParent;
    ChainStep(found, next, budget - |done|);
    var rest := Chain(found, MessageParent(found[next]), budget - |done| - 1);
    assert done + ([next] + rest.ids) == (done + [next]) + rest.ids;
  }

  lemma FollowingEnd(found: map<string, Document>, parentID: string, budget: nat, done: seq<string>, next: string)
    requires Following(found, parentID, budget, done, next)
    requires next == "" || |done| == budget || next !in found
    ensures Chain(found, parentID, budget) == Walk(done, next)
  {
    hide Chain;
    ChainHead(found, next, budget - |done|);
    assert done + [] == done;
  }

  lemma FollowingStart(found: map<string, Document>, parentID: string, budget: nat)
    ensures Following(found, parentID, budget, [], parentID)
  {
    hide Chain;
    assert [] + Chain(found, parentID, budget).ids == Chain(found, parentID, budget).ids;
  }

  /** Follows the links through `found`; an unreadable message is followed, not returned. */
  method LinkedAncestors(
    found: map<string, Document>, parentID: string, conversationID: string, budget: nat)
    returns (chain: seq<Message>, next: string, used: nat)
    ensures chain == Decoded(found, conversationID, Chain(found, parentID, budget).ids)
    ensures next == Chain(found, parentID, budget).next
    ensures used == |Chain(found, parentID, budget).ids|
  {
    hide Chain, Following, DecodeReplyingTo, Decoded, DecodeMessage, MessageParent;
    chain, used, next := [], 0, parentID;
    ghost var done: seq<string> := [];
    FollowingStart(found, parentID, budget);
    while next != "" && used < budget
      invariant used == |done| <= budget
      invariant forall id :: id in done ==> id in found
      invariant chain == Decoded(found, conversationID, done)
      invariant Following(found, parentID, budget, done, next)
      decreases budget - used
    {
      if next !in found {
        break;
      }
      var message := DecodeMessage(found[next], conversationID);
      DecodedSnoc(found, conversationID, done, next);
      FollowingStep(found, parentID, budget, done, next);
      done := done + [next];
      if message.Some? {
        chain := chain + [message.value];
      }
      used := used + 1;
      next := MessageParent(found[next]);
    }
    FollowingEnd(found, parentID, budget, done, next);
  }

  // ------------------------------------------------------------ what a round trip reaches

  function LinkShape(d: Document): Shape {
    if d.replyingTo.Doc? then ViaObject else ViaString
  }

  /** How often the stored shape of the link changes along a chain; the last message's
      own link leads out of the chain and is not one of them. */
  function ShapeChanges(db: map<string, Document>, ids: seq<string>): nat
    requires forall i :: 0 <= i < |ids| ==> ids[i] in db
  {
    if |ids| < 3 then 0
    else (if LinkShape(db[ids[0]]) != LinkShape(db[ids[1]]) then 1 else 0) + ShapeChanges(db, ids[1..])
  }

  /** A traversal reaches the end of every path of its shape no longer than its depth. */
  lemma {:induction false} LookupReaches(
    db: MessageStore, conversationID: string, shape: Shape, values: set<string>, maxDepth: nat, path: seq<string>)
    requires 0 < |path| <= maxDepth + 1 && path[0] in values
    requires forall i :: 0 <= i < |path| ==> Live(db, conversationID, path[i])
    requires forall i :: 0 <= i < |path| - 1 ==> path[i] in db && ConnectFrom(db[path[i]], shape) == Some(path[i + 1])
    ensures path[|path| - 1] in GraphLookup(db, conversationID, shape, values, maxDepth)
    decreases maxDepth
  {
    if |path| > 1 {
      var next := Connected(db, shape, Matches(db, conversationID, values));
      assert ConnectFrom(db[path[0]], shape) == Some(path[0 + 1]);
      assert path[1..][0] in next;
      LookupReaches(db, conversationID, shape, next, maxDepth - 1, path[1..]);
    }
  }

  /** From its second message on, a chain is a path of traversal links of whatever shape
      the links are stored in. */
  lemma ChainConnects(db: MessageStore, conversationID: string, parent: string, budget: nat, i: nat)
    requires i + 1 < |Chain(LiveMessages(db, conversationID), parent, budget).ids|
    ensures var ids := Chain(LiveMessages(db, conversationID), parent, budget).ids;
            ids[i] in db && ConnectFrom(db[ids[i]], LinkShape(db[ids[i]])) == Some(ids[i + 1]) &&
            ids[i + 1] in StartWith(db[ids[i]])
  {
    var live := LiveMessages(db, conversationID);
    var ids := Chain(live, parent, budget).ids;
    ChainLinks(live, parent, budget, i);
  }

  /** One round trip covers the start, its own parent, and the run of equally shaped links
      from there on, up to the whole remaining budget. */
  lemma SegmentCovers(
    db: MessageStore, conversationID: string, parent: string, budget: nat, ids: seq<string>, j: nat)
    requires ids == Chain(LiveMessages(db, conversationID), parent, budget).ids
    requires j < |ids|
    requires forall i :: 0 <= i < |ids| ==> ids[i] in db
    requires forall i :: 1 <= i < j ==> LinkShape(db[ids[i]]) == LinkShape(db[ids[1]])
    ensures ids[j] in SegmentIDs(db, conversationID, parent, budget)
  {
    assert ids[j] in LiveMessages(db, conversationID) && ids[j] != "";
    ChainHead(LiveMessages(db, conversationID), parent, budget);
    if j > 0 {
      TraversalCovers(db, conversationID, parent, budget, ids, j);
    }
  }

  lemma TraversalCovers(
    db: MessageStore, conversationID: string, parent: string, budget: nat, ids: seq<string>, j: nat)
    requires ids == Chain(LiveMessages(db, conversationID), parent, budget).ids
    requires 0 < j < |ids|
    requires forall i :: 0 <= i < |ids| ==> ids[i] in db
    requires forall i :: 1 <= i < j ==> LinkShape(db[ids[i]]) == LinkShape(db[ids[1]])
    ensures ids[j] in Traversal(db, conversationID, parent, budget, LinkShape(db[ids[1]]))
  {
    hide Chain, LiveMessages, GraphLookup, DecodeReplyingTo, ConnectFrom, StartWith, LinkShape;
    var shape := LinkShape(db[ids[1]]);
    var path := ids[1..j + 1];
    forall i | 0 <= i < |path| - 1
      ensures path[i] in db && ConnectFrom(db[path[i]], shape) == Some(path[i + 1])
    {
      ChainConnects(db, conversationID, parent, budget, i + 1);
    }
    ChainConnects(db, conversationID, parent, budget, 0);
    ChainHead(LiveMessages(db, conversationID), parent, budget);
    LookupReaches(db, conversationID, shape, StartWith(db[parent]), budget - 2, path);
  }

  lemma {:induction false} ChangesAfter(db: map<string, Document>, ids: seq<string>, j: nat, k: nat)
    requires forall i :: 0 <= i < |ids| ==> ids[i] in db
    requires k < j <= |ids| && k + 2 < |ids|
    requires LinkShape(db[ids[k]]) != LinkShape(db[ids[k + 1]])
    ensures ShapeChanges(db, ids[j..]) + 1 <= ShapeChanges(db, ids)
    decreases j
  {
    if k == 0 {
      ChangesDrop(db, ids[1..], j - 1);
      assert ids[1..][j - 1..] == ids[j..];
    } else {
      ChangesAfter(db, ids[1..], j - 1, k - 1);
      assert ids[1..][j - 1..] == ids[j..];
    }
  }

  lemma {:induction false} ChangesDrop(db: map<string, Document>, ids: seq<string>, j: nat)
    requires forall i :: 0 <= i < |ids| ==> ids[i] in db
    requires j <= |ids|
    ensures ShapeChanges(db, ids[j..]) <= ShapeChanges(db, ids)
    decreases j
  {
    if j == 0 {
      assert ids[0..] == ids;
    } else {
      ChangesDrop(db, ids[1..], j - 1);
      assert ids[1..][j - 1..] == ids[j..];
    }
  }

  /** Round trips needed for the followed part of a chain, at most. */
  function TripBound(db: map<string, Document>, ids: seq<string>): nat
    requires forall i :: 0 <= i < |ids| ==> ids[i] in db
  {
    if ids == [] then 0 else 1 + ShapeChanges(db, ids)
  }

  /** A round trip brings back its start exactly when that is live. */
  lemma SegmentHead(db: MessageStore, conversationID: string, parent: string, budget: nat)
    requires parent != ""
    ensures parent in Segment(db, conversationID, parent, budget) <==> parent in LiveMessages(db, conversationID)
  {
    hide Traversal;
    if Live(db, conversationID, parent) {
      assert parent in SegmentIDs(db, conversationID, parent, budget);
    }
  }

  /** Every round trip from a live parent makes progress and uses up a shape change of its
      own whenever it leaves part of the chain for the next one. */
  lemma RoundTripProgress(db: MessageStore, conversationID: string, parent: string, budget: nat)
    requires budget > 0 && parent != "" && Live(db, conversationID, parent)
    ensures var live := LiveMessages(db, conversationID);
            var part := Chain(Segment(db, conversationID, parent, budget), parent, budget);
            var rest := Chain(live, part.next, budget - |part.ids|);
            && part.ids != []
            && Chain(live, parent, budget) == Walk(part.ids + rest.ids, rest.next)
            && 1 + TripBound(live, rest.ids) <= TripBound(live, part.ids + rest.ids)
  {
    hide LiveMessages, Segment, SegmentIDs, Chain, ShapeChanges;
    var live := LiveMessages(db, conversationID);
    var found := Segment(db, conversationID, parent, budget);
    var part := Chain(found, parent, budget);
    var rest := Chain(live, part.next, budget - |part.ids|);
    var ids := part.ids + rest.ids;
    ChainResumes(live, found, parent, budget);
    SegmentHead(db, conversationID, parent, budget);
    ChainHead(found, parent, budget);
    if rest.ids != [] {
      ChainHead(live, part.next, budget - |part.ids|);
      ChainStops(found, parent, budget);
      CutAtChange(db, conversationID, parent, budget, ids, |part.ids|);
      assert ids[|part.ids|..] == rest.ids;
    }
  }

  /** If a round trip from `parent` misses the message at `j`, a shape change lies before it. */
  lemma CutAtChange(
    db: MessageStore, conversationID: string, parent: string, budget: nat, ids: seq<string>, j: nat)
    requires ids == Chain(LiveMessages(db, conversationID), parent, budget).ids
    requires forall i :: 0 <= i < |ids| ==> ids[i] in db && ids[i] in LiveMessages(db, conversationID)
    requires j < |ids| && ids[j] !in SegmentIDs(db, conversationID, parent, budget)
    ensures 1 + ShapeChanges(LiveMessages(db, conversationID), ids[j..]) <=
            ShapeChanges(LiveMessages(db, conversationID), ids)
  {
    if forall i :: 1 <= i < j ==> LinkShape(db[ids[i]]) == LinkShape(db[ids[1]]) {
      SegmentCovers(db, conversationID, parent, budget, ids, j);
      assert false;
    } else {
      var i :| 1 <= i < j && LinkShape(db[ids[i]]) != LinkShape(db[ids[1]]);
      var k := FirstChange(db, ids, i);
      ChangesAfter(LiveMessages(db, conversationID), ids, j, k);
    }
  }

  lemma {:induction false} FirstChange(db: map<string, Document>, ids: seq<string>, i: nat) returns (k: nat)
    requires forall m :: 0 <= m < |ids| ==> ids[m] in db
    requires 1 <= i < |ids| && LinkShape(db[ids[i]]) != LinkShape(db[ids[1]])
    ensures 1 <= k < i && LinkShape(db[ids[k]]) != LinkShape(db[ids[k + 1]])
  {
    if LinkShape(db[ids[i - 1]]) != LinkShape(db[ids[i]]) {
      k := i - 1;
    } else {
      k := FirstChange(db, ids, i - 1);
    }
  }

  // ------------------------------------------------------------------------ ReplyThread

  datatype Thread = Thread(messages: seq<Message>, depth: nat, truncated: bool, rootMessageID: string)

  datatype ThreadError = MessageNotFound | StoreFailed

  function EffectiveLimit(limit: int): nat {
    if limit < 1 then 1 else limit
  }

  predicate Anchors(db: MessageStore, conversationID: string, messageID: string) {
    && conversationID != "" && messageID != ""
    && Live(db, conversationID, messageID)
    && DecodeMessage(db[messageID], conversationID).Some?
  }

  /** The reference: one hop at a time from the anchor, at most `limit` hops. */
  ghost function LineageWalk(db: MessageStore, conversationID: string, messageID: string, limit: int): Walk
    requires Anchors(db, conversationID, messageID)
  {
    Chain(LiveMessages(db, conversationID), MessageParent(db[messageID]), EffectiveLimit(limit))
  }

  /** The thread that walk stands for, before parent senders are filled in. */
  ghost function LineageThread(db: MessageStore, conversationID: string, messageID: string, limit: int)
    : (t: Thread)
    requires Anchors(db, conversationID, messageID)
    ensures t.depth == |t.messages| - 1
  {
    var w := LineageWalk(db, conversationID, messageID, limit);
    var anchor := DecodeMessage(db[messageID], conversationID).value;
    var messages := Reverse(Decoded(LiveMessages(db, conversationID), conversationID, w.ids)) + [anchor];
    Thread(messages, |messages| - 1, w.next != "", if w.next == "" then messages[0].messageID else "")
  }

  /** Round trips allowed for a walk: one, one more per shape change along the walked
      chain, and a last one that finds a broken link inside the limit. */
  ghost function MaxTrips(db: MessageStore, conversationID: string, w: Walk, limit: nat): nat
    requires forall i :: 0 <= i < |w.ids| ==> w.ids[i] in LiveMessages(db, conversationID)
  {
    TripBound(LiveMessages(db, conversationID), w.ids) +
    if w.next != "" && |w.ids| < limit then 1 else 0
  }

  lemma {:induction false} DecodedAgrees(
    a: map<string, Document>, b: map<string, Document>, conversationID: string, ids: seq<string>)
    requires forall i :: 0 <= i < |ids| ==> ids[i] in a && ids[i] in b && a[ids[i]] == b[ids[i]]
    ensures Decoded(a, conversationID, ids) == Decoded(b, conversationID, ids)
  {
    if ids != [] {
      DecodedAgrees(a, b, conversationID, ids[..|ids| - 1]);
    }
  }

  /** Where the loop stands: `hops` of the walk followed, `trips` spent, the rest ahead. */
  ghost predicate Underway(
    live: map<string, Document>, w: Walk, limit: nat, hops: nat, parent: string, trips: nat)
  {
    && hops <= |w.ids| <= limit
    && (forall i :: 0 <= i < |w.ids| ==> w.ids[i] in live)
    && Chain(live, parent, limit - hops) == Walk(w.ids[hops..], w.next)
    && trips + TripBound(live, w.ids[hops..]) <= TripBound(live, w.ids)
  }

  lemma SegmentAdvances(
    live: map<string, Document>, w: Walk, limit: nat, hops: nat, parent: string, trips: nat,
    ids: seq<string>, next: string)
    requires Underway(live, w, limit, hops, parent, trips)
    requires hops + |ids| <= limit
    requires var rest := Chain(live, next, limit - hops - |ids|);
             && Walk(w.ids[hops..], w.next) == Walk(ids + rest.ids, rest.next)
             && 1 + TripBound(live, rest.ids) <= TripBound(live, w.ids[hops..])
    ensures Underway(live, w, limit, hops + |ids|, next, trips + 1)
    ensures w.ids[..hops + |ids|] == w.ids[..hops] + ids
  {
    var rest := Chain(live, next, limit - hops - |ids|);
    assert w.ids[hops..][..|ids|] == ids;
    assert w.ids[hops..][|ids|..] == rest.ids == w.ids[hops + |ids|..];
  }

  lemma NextTripFits(
    db: MessageStore, conversationID: string, w: Walk, limit: nat, hops: nat, parent: string, trips: nat)
    requires Underway(LiveMessages(db, conversationID), w, limit, hops, parent, trips)
    requires parent != "" && hops < limit
    ensures trips + 1 <= MaxTrips(db, conversationID, w, limit)
  {
    ChainHead(LiveMessages(db, conversationID), parent, limit - hops);
  }

  lemma WalkFinished(
    live: map<string, Document>, w: Walk, limit: nat, hops: nat, parent: string, trips: nat)
    requires Underway(live, w, limit, hops, parent, trips)
    requires parent == "" || hops == limit || parent !in live
    ensures w == Walk(w.ids[..hops], parent) && trips <= TripBound(live, w.ids)
  {
    ChainHead(live, parent, limit - hops);
  }

  /** The next round trip and the links followed through it. */
  method FollowSegment(
    db: MessageStore, conversationID: string, parent: string, limit: nat, hops: nat,
    ghost w: Walk, ghost trips: nat)
    returns (chain: seq<Message>, next: string, used: nat)
    requires parent != "" && hops < limit
    requires Underway(LiveMessages(db, conversationID), w, limit, hops, parent, trips)
    ensures used == 0 ==> parent !in LiveMessages(db, conversationID)
    ensures used > 0 ==> Underway(LiveMessages(db, conversationID), w, limit, hops + used, next, trips + 1)
    ensures used > 0 ==> Decoded(LiveMessages(db, conversationID), conversationID, w.ids[..hops + used]) ==
                         Decoded(LiveMessages(db, conversationID), conversationID, w.ids[..hops]) + chain
  {
    hide Chain, TripBound, Decoded, Segment, SegmentIDs, LiveMessages;
    var found := AncestorSegment(db, conversationID, parent, limit - hops);
    chain, next, used := LinkedAncestors(found, parent, conversationID, limit - hops);
    SegmentHead(db, conversationID, parent, limit - hops);
    ChainHead(found, parent, limit - hops);
    if used > 0 {
      SegmentOfWalk(db, conversationID, parent, limit, hops, w, trips);
      SegmentDecodes(LiveMessages(db, conversationID), found, conversationID, w.ids[..hops],
                     Chain(found, parent, limit - hops).ids);
    }
  }

  lemma SegmentOfWalk(
    db: MessageStore, conversationID: string, parent: string, limit: nat, hops: nat, w: Walk, trips: nat)
    requires parent != "" && hops < limit && Live(db, conversationID, parent)
    requires Underway(LiveMessages(db, conversationID), w, limit, hops, parent, trips)
    ensures var part := Chain(Segment(db, conversationID, parent, limit - hops), parent, limit - hops);
            && Underway(LiveMessages(db, conversationID), w, limit, hops + |part.ids|, part.next, trips + 1)
            && w.ids[..hops + |part.ids|] == w.ids[..hops] + part.ids
  {
    hide Chain, TripBound, ShapeChanges, LiveMessages, Segment, SegmentIDs, Traversal;
    var live := LiveMessages(db, conversationID);
    var part := Chain(Segment(db, conversationID, parent, limit - hops), parent, limit - hops);
    RoundTripProgress(db, conversationID, parent, limit - hops);
    SegmentAdvances(live, w, limit, hops, parent, trips, part.ids, part.next);
  }

  /** Decoding the longer prefix appends the segment's own readable messages. */
  lemma SegmentDecodes(
    live: map<string, Document>, found: map<string, Document>, conversationID: string,
    before: seq<string>, ids: seq<string>)
    requires forall i :: 0 <= i < |before| ==> before[i] in live
    requires forall i :: 0 <= i < |ids| ==> ids[i] in found
    requires forall id :: id in found ==> id in live && found[id] == live[id]
    ensures (forall id :: id in before + ids ==> id in live) &&
            Decoded(live, conversationID, before + ids) ==
            Decoded(live, conversationID, before) + Decoded(found, conversationID, ids)
  {
    DecodedAgrees(found, live, conversationID, ids);
    DecodedConcat(live, conversationID, before, ids);
  }

  /** The ancestors of an anchor, nearest first. `fault(k)` says that the k-th aggregation
      fails; `trips` counts the aggregations attempted. */
  method WalkAncestors(
    db: MessageStore, conversationID: string, start: string, limit: nat, fault: nat -> bool)
    returns (nearestFirst: seq<Message>, parent: string, trips: nat, failed: bool)
    ensures forall k :: 0 < k < trips ==> !fault(k)
    ensures failed <==> 0 < trips && fault(trips)
    ensures var w := Chain(LiveMessages(db, conversationID), start, limit);
            && trips <= MaxTrips(db, conversationID, w, limit)
            && (!failed ==> parent == w.next &&
                            nearestFirst == Decoded(LiveMessages(db, conversationID), conversationID, w.ids))
  {
    hide Chain, Decoded, LiveMessages, ShapeChanges;
    ghost var live := LiveMessages(db, conversationID);
    ghost var w := Chain(live, start, limit);
    nearestFirst, parent, trips, failed := [], start, 0, false;
    var hops := 0;
    assert w.ids[0..] == w.ids;
    while parent != "" && hops < limit
      invariant Underway(live, w, limit, hops, parent, trips)
      invariant nearestFirst == Decoded(live, conversationID, w.ids[..hops])
      invariant forall k :: 0 < k <= trips ==> !fault(k)
      decreases limit - hops
    {
      NextTripFits(db, conversationID, w, limit, hops, parent, trips);
      if fault(trips + 1) {
        return nearestFirst, parent, trips + 1, true;
      }
      var chain, next, used := FollowSegment(db, conversationID, parent, limit, hops, w, trips);
      if used == 0 {
        WalkFinished(live, w, limit, hops, parent, trips);
        return nearestFirst, parent, trips + 1, false;
      }
      trips := trips + 1;
      nearestFirst := nearestFirst + chain;
      hops := hops + used;
      parent := next;
    }
    WalkFinished(live, w, limit, hops, parent, trips);
  }

  /** Turns the walk into a transcript, oldest first, ending with the anchor. */
  method Assemble(nearestFirst: seq<Message>, parent: string, anchor: Message) returns (t: Thread)
    ensures t.messages == Reverse(nearestFirst) + [anchor]
    ensures t.depth == |nearestFirst|
    ensures t.truncated <==> parent != ""
    ensures t.rootMessageID == if parent == "" then t.messages[0].messageID else ""
  {
    var ancestors := [];
    var i := |nearestFirst| - 1;
    while i >= 0
      invariant -1 <= i < |nearestFirst|
      invariant |ancestors| == |nearestFirst| - 1 - i
      invariant forall k :: 0 <= k < |ancestors| ==> ancestors[k] == nearestFirst[|nearestFirst| - 1 - k]
    {
      ancestors := ancestors + [nearestFirst[i]];
      i := i - 1;
    }
    assert ancestors == Reverse(nearestFirst);
    var truncated := parent != "";
    var root := "";
    if !truncated && |ancestors| > 0 {
      root := ancestors[0].messageID;
    } else if !truncated {
      root := anchor.messageID;
    }
    t := Thread(ancestors + [anchor], |ancestors|, truncated, root);
  }

  /** Fills the parent senders of a thread's messages, or leaves them out when that fails. */
  method WithParentSenders(db: MessageStore, thread: Thread, enrichmentFails: bool) returns (t: Thread)
    ensures t == if enrichmentFails && AnyParent(thread.messages) then thread
                 else thread.(messages := Enriched(db, thread.messages))
  {
    hide Enriched, AnyParent;
    var rows := new Message[|thread.messages|](
      j requires 0 <= j < |thread.messages| => thread.messages[j]);
    assert rows[..] == thread.messages;
    var ok := ResolveReplyParents(db, rows, enrichmentFails);
    return thread.(messages := rows[..]);
  }

  /** Every message is that of a row stored in this conversation and not deleted, and says
      what the row does. */
  ghost predicate AllTell(db: MessageStore, conversationID: string, messages: seq<Message>) {
    forall m :: m in messages ==>
      && m.messageID in db && db[m.messageID].conversationID == conversationID && !db[m.messageID].isDeleted
      && db[m.messageID].sender == m.senderEntityID && db[m.messageID].content == Some(m.content)
      && db[m.messageID].createdAt == m.createdAt && db[m.messageID].isReply == m.isReply
  }

  /** The walk from an anchor that was found, and the thread it makes. */
  method ReadLineage(
    db: MessageStore, conversationID: string, messageID: string, limit: int, anchor: Message,
    fault: nat -> bool, enrichmentFails: bool)
    returns (r: Result<Thread, ThreadError>, trips: nat)
    requires Anchors(db, conversationID, messageID)
    requires DecodeMessage(db[messageID], conversationID) == Some(anchor)
    ensures var t := LineageThread(db, conversationID, messageID, limit);
            var w := LineageWalk(db, conversationID, messageID, limit);
            && trips <= MaxTrips(db, conversationID, w, EffectiveLimit(limit))
            && (forall k :: 0 < k < trips ==> !fault(k))
            && (r.Failure? <==> 0 < trips && fault(trips))
            && (r.Failure? ==> r.error == StoreFailed)
            && (r.Success? ==>
                  r.value == if enrichmentFails && AnyParent(t.messages) then t
                             else t.(messages := Enriched(db, t.messages)))
  {
    hide Chain, Decoded, LiveMessages, MaxTrips, Enriched, AnyParent, DecodeReplyingTo, DecodeMessage, MessageParent;
    var effective := if limit < 1 then 1 else limit;
    var nearestFirst, parent, attempted, failed :=
      WalkAncestors(db, conversationID, anchor.replyingTo, effective, fault);
    if failed {
      return Failure(StoreFailed), attempted;
    }
    var thread := Assemble(nearestFirst, parent, anchor);
    assert thread == LineageThread(db, conversationID, messageID, limit);
    var enriched := WithParentSenders(db, thread, enrichmentFails);
    return Success(enriched), attempted;
  }

  /** Refines the reference walk: the same messages in the same order, the same verdict on
      truncation and root, however the chain was cut, within `MaxTrips` round trips. A
      failed read anywhere fails the call; a failed enrichment only leaves it out. Whatever
      is returned is stored in this conversation, undeleted, and says what its row does. */
  method ReplyThread(
    db: MessageStore, conversationID: string, messageID: string, limit: int,
    fault: nat -> bool, enrichmentFails: bool)
    returns (r: Result<Thread, ThreadError>, trips: nat)
    ensures conversationID == "" || messageID == "" ==> r == Failure(MessageNotFound) && trips == 0
    ensures conversationID != "" && messageID != "" && fault(0) ==> r == Failure(StoreFailed)
    ensures conversationID != "" && messageID != "" && !fault(0) && !Anchors(db, conversationID, messageID) ==>
              r == Failure(MessageNotFound)
    ensures messageID !in db || db[messageID].isDeleted || db[messageID].conversationID != conversationID ==>
              r.Failure?
    ensures r.Success? ==>
              && AllTell(db, conversationID, r.value.messages)
              && r.value.messages != [] && r.value.messages[|r.value.messages| - 1].messageID == messageID
              && r.value.depth == |r.value.messages| - 1 <= if limit < 1 then 1 else limit
    ensures (forall k :: !fault(k)) && conversationID != "" && messageID != "" && messageID in db
            && db[messageID].conversationID == conversationID && !db[messageID].isDeleted
            && db[messageID].sender != "" && db[messageID].content.Some? ==>
              r.Success?
    ensures Anchors(db, conversationID, messageID) && !fault(0) ==>
              var t := LineageThread(db, conversationID, messageID, limit);
              var w := LineageWalk(db, conversationID, messageID, limit);
              && trips <= MaxTrips(db, conversationID, w, EffectiveLimit(limit))
              && (forall k :: 0 < k < trips ==> !fault(k))
              && (fault(trips) ==> r == Failure(StoreFailed))
              && (!fault(trips) ==>
                    r == Success(if enrichmentFails && AnyParent(t.messages) then t
                                 else t.(messages := Enriched(db, t.messages))))
  {
    hide AllTell, LineageThread, LineageWalk, MaxTrips, Enriched, AnyParent, DecodeMessage;
    if conversationID == "" || messageID == "" {
      return Failure(MessageNotFound), 0;
    }
    if fault(0) {
      return Failure(StoreFailed), 0;
    }
    if !Live(db, conversationID, messageID) {
      return Failure(MessageNotFound), 0;
    }
    var anchor := DecodeMessage(db[messageID], conversationID);
    if anchor.None? {
      return Failure(MessageNotFound), 0;
    }
    ThreadTells(db, conversationID, messageID, limit);
    EnrichmentTells(db, conversationID, LineageThread(db, conversationID, messageID, limit).messages);
    r, trips := ReadLineage(db, conversationID, messageID, limit, anchor.value, fault, enrichmentFails);
  }

  lemma ThreadTells(db: MessageStore, conversationID: string, messageID: string, limit: int)
    requires Anchors(db, conversationID, messageID)
    ensures var t := LineageThread(db, conversationID, messageID, limit);
            && AllTell(db, conversationID, t.messages)
            && t.messages[|t.messages| - 1].messageID == messageID
            && t.depth <= if limit < 1 then 1 else limit
  {
    var live, t := LiveMessages(db, conversationID), LineageThread(db, conversationID, messageID, limit);
    var w := LineageWalk(db, conversationID, messageID, limit);
    DecodedAreFewer(live, conversationID, w.ids);
    hide Chain, Decoded, DecodeMessage;
    DecodeMeans(db[messageID], conversationID);
    forall m | m in t.messages
      ensures Tells(db, m) && db[m.messageID].conversationID == conversationID && !db[m.messageID].isDeleted
    {
      if m in Reverse(Decoded(live, conversationID, w.ids)) {
        var k :| 0 <= k < |Decoded(live, conversationID, w.ids)|
                 && Reverse(Decoded(live, conversationID, w.ids))[k] == m;
        assert m in Decoded(live, conversationID, w.ids);
        DecodedTells(live, conversationID, w.ids, m);
      }
    }
  }

  lemma EnrichmentTells(db: MessageStore, conversationID: string, messages: seq<Message>)
    requires AllTell(db, conversationID, messages)
    ensures AllTell(db, conversationID, Enriched(db, messages))
    ensures forall i :: 0 <= i < |messages| ==> Enriched(db, messages)[i].messageID == messages[i].messageID
  {
    forall m | m in Enriched(db, messages)
      ensures Tells(db, m) && db[m.messageID].conversationID == conversationID && !db[m.messageID].isDeleted
    {
      var i :| 0 <= i < |messages| && Enriched(db, messages)[i] == m;
      assert messages[i] in messages;
    }
  }

  // -------------------------------------------------------- what the thread's fields mean

  /** Where the reply pointer stands after k hops from `parent`: "" once a message without a
      message parent has been passed, None when a hop leads through a missing message. */
  ghost function Hop(live: map<string, Document>, parent: string, k: nat): Option<string>
    decreases k
  {
    if k == 0 then Some(parent)
    else if parent == "" || parent !in live then None
    else Hop(live, MessageParent(live[parent]), k - 1)
  }

  lemma {:induction false} WalkStopHop(live: map<string, Document>, parent: string, budget: nat)
    ensures var w := Chain(live, parent, budget); Hop(live, parent, |w.ids|) == Some(w.next)
    decreases budget
  {
    ChainHead(live, parent, budget);
    if parent != "" && budget > 0 && parent in live {
      ChainStep(live, parent, budget);
      WalkStopHop(live, MessageParent(live[parent]), budget - 1);
    }
  }

  lemma {:induction false} RootHopStopsWalk(live: map<string, Document>, parent: string, budget: nat, k: nat)
    requires k <= budget && Hop(live, parent, k) == Some("")
    ensures Chain(live, parent, budget).next == ""
    decreases budget
  {
    ChainHead(live, parent, budget);
    if k > 0 {
      ChainStep(live, parent, budget);
      RootHopStopsWalk(live, MessageParent(live[parent]), budget - 1, k - 1);
    }
  }

  /** The walk stops at "" exactly when some hop within the budget arrives there. */
  lemma WalkReachesRoot(live: map<string, Document>, parent: string, budget: nat)
    ensures Chain(live, parent, budget).next == "" <==>
            exists k :: 0 <= k <= budget && Hop(live, parent, k) == Some("")
  {
    WalkStopHop(live, parent, budget);
    if k :| 0 <= k <= budget && Hop(live, parent, k) == Some("") {
      RootHopStopsWalk(live, parent, budget, k);
    }
  }

  /** `Truncated`: no message without a message parent was reached within `limit` hops. */
  lemma TruncatedMeaning(db: MessageStore, conversationID: string, messageID: string, limit: int)
    requires Anchors(db, conversationID, messageID)
    ensures LineageThread(db, conversationID, messageID, limit).truncated <==>
            !exists k :: 0 <= k <= (if limit < 1 then 1 else limit) &&
                         Hop(LiveMessages(db, conversationID), MessageParent(db[messageID]), k) == Some("")
    ensures LineageThread(db, conversationID, messageID, limit).truncated <==>
            LineageThread(db, conversationID, messageID, limit).rootMessageID == ""
    ensures LineageThread(db, conversationID, messageID, limit).depth <= if limit < 1 then 1 else limit
  {
    var live := LiveMessages(db, conversationID);
    var w := LineageWalk(db, conversationID, messageID, limit);
    WalkReachesRoot(live, MessageParent(db[messageID]), EffectiveLimit(limit));
    DecodedWithin(live, conversationID, w.ids);
  }

  lemma {:induction false} DecodedWithin(db: map<string, Document>, conversationID: string, ids: seq<string>)
    requires forall i :: 0 <= i < |ids| ==> ids[i] in db && db[ids[i]].messageID == ids[i]
    ensures |Decoded(db, conversationID, ids)| <= |ids|
    ensures forall m :: m in Decoded(db, conversationID, ids) ==> m.messageID != "" && m.messageID in ids
  {
    if ids != [] {
      DecodedWithin(db, conversationID, ids[..|ids| - 1]);
    }
  }

  lemma {:induction false} HopCompose(live: map<string, Document>, parent: string, i: nat, m: nat)
    requires Hop(live, parent, i).Some?
    ensures Hop(live, parent, i + m) == Hop(live, Hop(live, parent, i).value, m)
    decreases i
  {
    if i > 0 {
      HopCompose(live, MessageParent(live[parent]), i - 1, m);
    }
  }

  lemma {:induction false} RootHopUnique(live: map<string, Document>, parent: string, a: nat, b: nat)
    requires Hop(live, parent, a) == Some("") && Hop(live, parent, b) == Some("")
    ensures a == b
    decreases a
  {
    if a > 0 && b > 0 {
      RootHopUnique(live, MessageParent(live[parent]), a - 1, b - 1);
    }
  }

  /** A reply pointer that comes back to where it was never arrives at a root: the thread
      of a cycle is always truncated, whatever the limit. */
  lemma CycleIsTruncated(live: map<string, Document>, parent: string, i: nat, j: nat, k: nat)
    requires i < j && Hop(live, parent, i) == Hop(live, parent, j)
    requires Hop(live, parent, i).Some? && Hop(live, parent, i).value != ""
    ensures Hop(live, parent, k) != Some("")
  {
    var x := Hop(live, parent, i).value;
    if Hop(live, parent, k) == Some("") {
      if k < j {
        HopCompose(live, parent, k, j - k);
      } else {
        HopCompose(live, parent, i, k - i);
        HopCompose(live, parent, j, k - j);
        RootHopUnique(live, x, k - i, k - j);
      }
    }
  }

  lemma {:induction false} WalkHops(live: map<string, Document>, parent: string, budget: nat, i: nat)
    requires i < |Chain(live, parent, budget).ids|
    ensures Hop(live, parent, i) == Some(Chain(live, parent, budget).ids[i])
    decreases budget
  {
    if i > 0 {
      WalkHops(live, MessageParent(live[parent]), budget - 1, i - 1);
    }
  }

  /** A thread whose anchor's replies run in a cycle is truncated. */
  lemma CycleThreadIsTruncated(
    db: MessageStore, conversationID: string, messageID: string, limit: int, i: nat, j: nat)
    requires Anchors(db, conversationID, messageID) && i < j
    requires var live, parent := LiveMessages(db, conversationID), MessageParent(db[messageID]);
             Hop(live, parent, i) == Hop(live, parent, j) && Hop(live, parent, i).Some?
             && Hop(live, parent, i).value != ""
    ensures LineageThread(db, conversationID, messageID, limit).truncated
  {
    var live, parent := LiveMessages(db, conversationID), MessageParent(db[messageID]);
    forall k: nat ensures Hop(live, parent, k) != Some("") {
      CycleIsTruncated(live, parent, i, j, k);
    }
    TruncatedMeaning(db, conversationID, messageID, limit);
  }

  /** A walk stops short of its budget, away from a root, exactly when some hop within the
      budget arrives at a message that is not there. */
  lemma StopsAtMissing(live: map<string, Document>, parent: string, budget: nat)
    ensures var w := Chain(live, parent, budget);
            w.next != "" && |w.ids| < budget <==>
            exists k: nat, x :: k < budget && x != "" && x !in live && Hop(live, parent, k) == Some(x)
  {
    hide Chain;
    var w := Chain(live, parent, budget);
    WalkStopHop(live, parent, budget);
    ChainStops(live, parent, budget);
    if k: nat, x :| k < budget && x != "" && x !in live && Hop(live, parent, k) == Some(x) {
      if k < |w.ids| {
        WalkHops(live, parent, budget, k);
      } else {
        HopCompose(live, parent, |w.ids|, k - |w.ids|);
      }
    }
  }

  /** `Truncated` without the limit having stopped the walk: a link within the limit leads to
      a message that is deleted, missing, or in another conversation. */
  lemma TruncatedBelowLimitIff(db: MessageStore, conversationID: string, messageID: string, limit: int)
    requires Anchors(db, conversationID, messageID)
    ensures LineageThread(db, conversationID, messageID, limit).truncated
            && |LineageWalk(db, conversationID, messageID, limit).ids| < EffectiveLimit(limit) <==>
            exists k: nat, x ::
              && k < EffectiveLimit(limit) && x != "" && !Live(db, conversationID, x)
              && Hop(LiveMessages(db, conversationID), MessageParent(db[messageID]), k) == Some(x)
  {
    StopsAtMissing(LiveMessages(db, conversationID), MessageParent(db[messageID]), EffectiveLimit(limit));
  }

  /** A reply to a deleted message: no link was followed, ten were allowed, and the thread
      is truncated. */
  lemma DeletedParentTruncates(db: MessageStore, parent: Document, reply: Document)
    requires parent == Document("m1", "c", "e", Some("hi"), "text", false, true, 0, Text(""))
    requires reply == Document("m2", "c", "e", Some("yes"), "text", true, false, 1, StoredReplyingTo("m1"))
    requires db == map["m1" := parent, "m2" := reply]
    ensures Anchors(db, "c", "m2")
    ensures LineageThread(db, "c", "m2", 10).truncated && LineageWalk(db, "c", "m2", 10).ids == []
  {
    assert !Live(db, "c", "m1") && Live(db, "c", "m2");
    ChainHead(LiveMessages(db, "c"), "m1", 10);
  }

  /** A walk that reaches a root visits no message twice. */
  lemma RootedWalkDistinct(live: map<string, Document>, parent: string, budget: nat)
    requires Chain(live, parent, budget).next == ""
    ensures NoRepeats(Chain(live, parent, budget).ids)
  {
    var ids := Chain(live, parent, budget).ids;
    WalkReachesRoot(live, parent, budget);
    var k :| 0 <= k <= budget && Hop(live, parent, k) == Some("");
    forall i, j | 0 <= i < j < |ids|
      ensures ids[i] != ids[j]
    {
      WalkHops(live, parent, budget, i);
      WalkHops(live, parent, budget, j);
      if ids[i] == ids[j] {
        CycleIsTruncated(live, parent, i, j, k);
      }
    }
  }

  /** The anchor and everything the walk followed, nearest first. */
  ghost function Lineage(db: MessageStore, conversationID: string, messageID: string, limit: int): seq<string>
    requires Anchors(db, conversationID, messageID)
  {
    [messageID] + LineageWalk(db, conversationID, messageID, limit).ids
  }

  lemma LineageIsWalk(db: MessageStore, conversationID: string, messageID: string, limit: int)
    requires Anchors(db, conversationID, messageID)
    ensures Chain(LiveMessages(db, conversationID), messageID, EffectiveLimit(limit) + 1) ==
            Walk(Lineage(db, conversationID, messageID, limit),
                 LineageWalk(db, conversationID, messageID, limit).next)
  {
    ChainStep(LiveMessages(db, conversationID), messageID, EffectiveLimit(limit) + 1);
  }

  /** The transcript is the lineage's readable messages, oldest first. */
  lemma TranscriptOfLineage(db: MessageStore, conversationID: string, messageID: string, limit: int)
    requires Anchors(db, conversationID, messageID)
    ensures var live := LiveMessages(db, conversationID);
            var ids := Lineage(db, conversationID, messageID, limit);
            && (forall id :: id in ids ==> id in live)
            && LineageThread(db, conversationID, messageID, limit).messages ==
               Reverse(Decoded(live, conversationID, ids))
  {
    var live := LiveMessages(db, conversationID);
    var w := LineageWalk(db, conversationID, messageID, limit);
    DecodedConcat(live, conversationID, [messageID], w.ids);
    assert Decoded(live, conversationID, [messageID]) == [DecodeMessage(db[messageID], conversationID).value] by {
      DecodedSnoc(live, conversationID, [], messageID);
      assert [] + [messageID] == [messageID];
    }
  }

  /** `RootMessageID` of a complete thread names the oldest readable message. It is the
      message that started the thread exactly when that message can be read. */
  lemma RootNamedIffReadable(db: MessageStore, conversationID: string, messageID: string, limit: int)
    requires Anchors(db, conversationID, messageID)
    requires !LineageThread(db, conversationID, messageID, limit).truncated
    ensures var ids := Lineage(db, conversationID, messageID, limit);
            var root := ids[|ids| - 1];
            && root in db && MessageParent(db[root]) == ""
            && (LineageThread(db, conversationID, messageID, limit).rootMessageID == root <==>
                DecodeMessage(db[root], conversationID).Some?)
  {
    hide LiveMessages;
    var live := LiveMessages(db, conversationID);
    var ids := Lineage(db, conversationID, messageID, limit);
    LineageIsWalk(db, conversationID, messageID, limit);
    RootedWalkDistinct(live, messageID, EffectiveLimit(limit) + 1);
    ChainLinks(live, messageID, EffectiveLimit(limit) + 1, |ids| - 1);
    TranscriptOfLineage(db, conversationID, messageID, limit);
    hide Chain, Decoded, MessageParent, DecodeMessage;
    assert forall i :: 0 <= i < |ids| ==> ids[i] in ids;
    OldestDecoded(live, conversationID, ids);
  }

  lemma OldestDecoded(live: map<string, Document>, conversationID: string, ids: seq<string>)
    requires ids != [] && NoRepeats(ids)
    requires forall i :: 0 <= i < |ids| ==> ids[i] in live && live[ids[i]].messageID == ids[i]
    requires Decoded(live, conversationID, ids) != []
    ensures Reverse(Decoded(live, conversationID, ids))[0].messageID == ids[|ids| - 1] <==>
            DecodeMessage(live[ids[|ids| - 1]], conversationID).Some?
  {
    var front, root := ids[..|ids| - 1], ids[|ids| - 1];
    assert ids == front + [root];
    DecodedSnoc(live, conversationID, front, root);
    DecodedWithin(live, conversationID, front);
    assert root !in front;
    var decoded := Decoded(live, conversationID, ids);
    assert Reverse(decoded)[0] == decoded[|decoded| - 1];
    if DecodeMessage(live[root], conversationID).None? {
      assert decoded[|decoded| - 1] in Decoded(live, conversationID, front);
    }
  }

  /** A thread whose first message is an image: complete, and yet its root is not named. */
  lemma ImageRootIsMisnamed(db: MessageStore, image: Document, reply: Document)
    requires image == Document("m1", "c", "e", None, "image", false, false, 0, Text(""))
    requires reply == Document("m2", "c", "e", Some("nice"), "text", true, false, 1, StoredReplyingTo("m1"))
    requires db == map["m1" := image, "m2" := reply]
    ensures Anchors(db, "c", "m2")
    ensures Lineage(db, "c", "m2", 10) == ["m2", "m1"] && MessageParent(db["m1"]) == ""
    ensures !LineageThread(db, "c", "m2", 10).truncated
    ensures LineageThread(db, "c", "m2", 10).rootMessageID != "m1"
  {
    var live := LiveMessages(db, "c");
    assert Live(db, "c", "m1") && Live(db, "c", "m2");
    ChainStep(live, "m1", 10);
    ChainHead(live, "", 9);
    RootNamedIffReadable(db, "c", "m2", 10);
  }

  /** All links between the messages of a chain are stored in one shape. */
  ghost predicate OneShape(db: map<string, Document>, ids: seq<string>)
    requires forall i :: 0 <= i < |ids| ==> ids[i] in db
  {
    forall i, j :: 0 <= i < j < |ids| - 1 ==> LinkShape(db[ids[i]]) == LinkShape(db[ids[j]])
  }

  /** A chain stored in one shape has no shape change to pay for. */
  lemma {:induction false} OneShapeOneTrip(db: map<string, Document>, ids: seq<string>)
    requires forall i :: 0 <= i < |ids| ==> ids[i] in db
    requires OneShape(db, ids)
    ensures TripBound(db, ids) <= 1
  {
    if |ids| >= 3 {
      OneShapeOneTrip(db, ids[1..]);
    }
  }

  /** A walk through links of one shape makes at most one round trip, whatever its length,
      and one more only to find a broken link below the limit. */
  lemma OneShapeTrips(db: MessageStore, conversationID: string, start: string, limit: nat)
    requires OneShape(LiveMessages(db, conversationID), Chain(LiveMessages(db, conversationID), start, limit).ids)
    ensures var w := Chain(LiveMessages(db, conversationID), start, limit);
            MaxTrips(db, conversationID, w, limit) <= if w.next != "" && |w.ids| < limit then 2 else 1
  {
    hide Chain, LiveMessages, OneShape;
    OneShapeOneTrip(LiveMessages(db, conversationID), Chain(LiveMessages(db, conversationID), start, limit).ids);
  }

  /** The link after message i of a chain is stored in another shape than its own. */
  ghost predicate ShapeChangesAt(db: map<string, Document>, ids: seq<string>, i: nat) {
    && i + 2 < |ids| && ids[i] in db && ids[i + 1] in db
    && db[ids[i]].replyingTo.Doc? != db[ids[i + 1]].replyingTo.Doc?
  }

  /** The bound on round trips: one, one more per message whose link is stored in another shape
      than the next one's, and one more for a broken link below the limit. */
  lemma MaxTripsMeans(db: MessageStore, conversationID: string, start: string, limit: nat)
    ensures var w := Chain(LiveMessages(db, conversationID), start, limit);
            MaxTrips(db, conversationID, w, limit)
            == (if w.ids == [] then 0 else 1 + |set i: nat | i < |w.ids| && ShapeChangesAt(db, w.ids, i)|)
               + if w.next != "" && |w.ids| < limit then 1 else 0
  {
    var live := LiveMessages(db, conversationID);
    var ids := Chain(live, start, limit).ids;
    hide Chain;
    ChangesCounted(live, ids, 0);
    assert ids[0..] == ids;
    forall i: nat ensures ShapeChangesAt(live, ids, i) == ShapeChangesAt(db, ids, i) {
    }
    hide ShapeChangesAt;
    assert ChangePoints(live, ids, 0) == (set i: nat | i < |ids| && ShapeChangesAt(db, ids, i));
  }

  ghost function ChangePoints(db: map<string, Document>, ids: seq<string>, k: nat): set<nat> {
    set i: nat | k <= i < |ids| && ShapeChangesAt(db, ids, i)
  }

  lemma PointsFrom(db: map<string, Document>, ids: seq<string>, k: nat)
    requires k < |ids|
    ensures |ChangePoints(db, ids, k)|
            == |ChangePoints(db, ids, k + 1)| + if ShapeChangesAt(db, ids, k) then 1 else 0
  {
    hide ShapeChangesAt;
    assert ChangePoints(db, ids, k)
           == ChangePoints(db, ids, k + 1) + if ShapeChangesAt(db, ids, k) then {k} else {};
  }

  lemma NoPointsAtEnd(db: map<string, Document>, ids: seq<string>, k: nat)
    requires k + 2 >= |ids|
    ensures ChangePoints(db, ids, k) == {}
  {
  }

  lemma {:induction false} ChangesCounted(db: map<string, Document>, ids: seq<string>, k: nat)
    requires forall i :: 0 <= i < |ids| ==> ids[i] in db
    requires k <= |ids|
    ensures ShapeChanges(db, ids[k..]) == |ChangePoints(db, ids, k)|
    decreases |ids| - k
  {
    hide ChangePoints, ShapeChangesAt;
    if k + 2 < |ids| {
      ChangesCounted(db, ids, k + 1);
      ChangesFrom(db, ids, k);
      PointsFrom(db, ids, k);
    } else {
      NoPointsAtEnd(db, ids, k);
    }
  }

  lemma ChangesFrom(db: map<string, Document>, ids: seq<string>, k: nat)
    requires forall i :: 0 <= i < |ids| ==> ids[i] in db
    requires k + 2 < |ids|
    ensures ShapeChanges(db, ids[k..])
            == (if ShapeChangesAt(db, ids, k) then 1 else 0) + ShapeChanges(db, ids[k + 1..])
  {
    assert ids[k..][1..] == ids[k + 1..];
    assert ids[k..][0] == ids[k] && ids[k..][1] == ids[k + 1];
  }

  /** Live rows, each storing the next one's id in the given shape. */
  ghost predicate LinkedPath(db: MessageStore, conversationID: string, shape: Shape, path: seq<string>) {
    && (forall i :: 0 <= i < |path| ==>
          path[i] in db && db[path[i]].conversationID == conversationID && !db[path[i]].isDeleted)
    && (forall i :: 0 <= i < |path| - 1 ==> Stores(db[path[i]], shape, path[i + 1]))
  }

  /** The row's `replyingTo` is `id` itself, or a document with that `id`. */
  ghost predicate Stores(d: Document, shape: Shape, id: string) {
    match shape
    case ViaObject => d.replyingTo.Doc? && d.replyingTo.id == Some(id)
    case ViaString => d.replyingTo == Text(id)
  }

  lemma {:induction false} LookupHasPath(
    db: MessageStore, conversationID: string, shape: Shape, values: set<string>, maxDepth: nat, id: string)
    returns (path: seq<string>)
    requires id in GraphLookup(db, conversationID, shape, values, maxDepth)
    ensures 0 < |path| <= maxDepth + 1 && path[0] in values && path[|path| - 1] == id
    ensures LinkedPath(db, conversationID, shape, path)
    decreases maxDepth
  {
    hide LinkedPath;
    var hit := Matches(db, conversationID, values);
    if id in hit {
      path := [id];
      PathOfOne(db, conversationID, shape, id);
    } else {
      var next := Connected(db, shape, hit);
      var rest := LookupHasPath(db, conversationID, shape, next, maxDepth - 1, id);
      var x :| x in hit && ConnectFrom(db[x], shape) == Some(rest[0]);
      path := [x] + rest;
      PathGrows(db, conversationID, shape, x, rest);
    }
  }

  lemma PathOfOne(db: MessageStore, conversationID: string, shape: Shape, id: string)
    requires Live(db, conversationID, id)
    ensures LinkedPath(db, conversationID, shape, [id])
  {
  }

  lemma PathGrows(db: MessageStore, conversationID: string, shape: Shape, x: string, rest: seq<string>)
    requires LinkedPath(db, conversationID, shape, rest) && rest != []
    requires Live(db, conversationID, x) && ConnectFrom(db[x], shape) == Some(rest[0])
    ensures LinkedPath(db, conversationID, shape, [x] + rest)
  {
    var path := [x] + rest;
    forall i | 0 <= i < |path| - 1 ensures Stores(db[path[i]], shape, path[i + 1]) {
      if i > 0 {
        assert Stores(db[rest[i - 1]], shape, rest[i - 1 + 1]);
      }
    }
  }

  /** A path of fewer than `budget` rows from the message the start names to `id`. */
  ghost predicate LeadsTo(
    db: MessageStore, conversationID: string, startID: string, budget: int, shape: Shape, path: seq<string>, id: string)
    requires startID in db
  {
    && 0 < |path| < budget && path[|path| - 1] == id && LinkedPath(db, conversationID, shape, path)
    && (Stores(db[startID], ViaObject, path[0]) || Stores(db[startID], ViaString, path[0]))
  }

  /** What a round trip brings back, exactly: nothing when the start is not live, else the start
      and the end of every path of one stored shape from the message it names, over live rows
      of the conversation, with at most `budget - 1` of them. */
  lemma SegmentMeans(db: MessageStore, conversationID: string, startID: string, budget: int, id: string)
    ensures id in Segment(db, conversationID, startID, budget) <==>
              && id != ""
              && startID in db && db[startID].conversationID == conversationID && !db[startID].isDeleted
              && (id == startID
                  || exists shape, path :: LeadsTo(db, conversationID, startID, budget, shape, path, id))
  {
    hide LeadsTo, GraphLookup;
    if Live(db, conversationID, startID) {
      PathsFound(db, conversationID, startID, budget, id);
    }
  }

  lemma PathsFound(db: MessageStore, conversationID: string, startID: string, budget: int, id: string)
    requires Live(db, conversationID, startID)
    ensures (exists shape, path :: LeadsTo(db, conversationID, startID, budget, shape, path, id))
            <==> id in Traversal(db, conversationID, startID, budget, ViaObject)
                 || id in Traversal(db, conversationID, startID, budget, ViaString)
  {
    hide LeadsTo, Traversal;
    if shape, path :| LeadsTo(db, conversationID, startID, budget, shape, path, id) {
      PathIsFound(db, conversationID, startID, budget, shape, path, id);
      assert shape == ViaObject || shape == ViaString;
    }
    forall shape | id in Traversal(db, conversationID, startID, budget, shape)
      ensures exists path :: LeadsTo(db, conversationID, startID, budget, shape, path, id)
    {
      var path := FoundHasPath(db, conversationID, startID, budget, shape, id);
    }
  }

  lemma PathIsFound(
    db: MessageStore, conversationID: string, startID: string, budget: int, shape: Shape, path: seq<string>, id: string)
    requires Live(db, conversationID, startID) && LeadsTo(db, conversationID, startID, budget, shape, path, id)
    ensures id in Traversal(db, conversationID, startID, budget, shape)
  {
    hide GraphLookup, LinkedPath;
    PathIsReached(db, conversationID, shape, StartWith(db[startID]), budget - 2, path);
  }

  lemma FoundHasPath(
    db: MessageStore, conversationID: string, startID: string, budget: int, shape: Shape, id: string)
    returns (path: seq<string>)
    requires Live(db, conversationID, startID) && id in Traversal(db, conversationID, startID, budget, shape)
    ensures LeadsTo(db, conversationID, startID, budget, shape, path, id)
  {
    hide GraphLookup, LinkedPath;
    path := LookupHasPath(db, conversationID, shape, StartWith(db[startID]), budget - 2, id);
  }

  lemma PathIsReached(
    db: MessageStore, conversationID: string, shape: Shape, values: set<string>, maxDepth: nat, path: seq<string>)
    requires 0 < |path| <= maxDepth + 1 && path[0] in values && LinkedPath(db, conversationID, shape, path)
    ensures path[|path| - 1] in GraphLookup(db, conversationID, shape, values, maxDepth)
  {
    forall i | 0 <= i < |path| - 1 ensures ConnectFrom(db[path[i]], shape) == Some(path[i + 1]) {
      assert Stores(db[path[i]], shape, path[i + 1]);
    }
    LookupReaches(db, conversationID, shape, values, maxDepth, path);
  }

  /** A reply to a post, moment or thought ends the walk even when its target's id is also
      the id of a live message, which the traversal then does bring back. */
  lemma OtherTargetEndsWalk(
    db: MessageStore, conversationID: string, id: string, kind: string, target: string, budget: nat)
    requires Live(db, conversationID, id) && id != "" && budget >= 2
    requires db[id].replyingTo == Doc(Some(kind), Some(target)) && kind != REPLY_TARGET_MESSAGE
    requires Live(db, conversationID, target) && target != ""
    ensures target in Segment(db, conversationID, id, budget)
    ensures Chain(Segment(db, conversationID, id, budget), id, budget) == Walk([id], "")
    ensures Chain(LiveMessages(db, conversationID), id, budget) == Walk([id], "")
  {
    assert target in Traversal(db, conversationID, id, budget, ViaObject) by {
      LookupReaches(db, conversationID, ViaObject, StartWith(db[id]), budget - 2, [target]);
    }
    ChainStep(Segment(db, conversationID, id, budget), id, budget);
    ChainStep(LiveMessages(db, conversationID), id, budget);
  }
}
