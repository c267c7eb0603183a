/** Comment threads: where a comment is stored, what a parent lookup returns, and every
    interleaving of creations (load the parent, later insert) with soft deletes. */
module CommentForest {
  import opened Collections

  /** A stored comment; `parent` is "" for a top-level one. */
  datatype Comment = Comment(post: string, parent: string, entityID: string, deleted: bool)

  type Table = map<string, Comment>

  /** What a parent lookup hands on; `ancestor` is "" when the comment is top-level. */
  datatype ParentComment = ParentComment(commentID: string, entityID: string, ancestor: string)

  datatype CommentError = ParentNotFound | ReadFailed | PostNotFound | InsertFailed

  /** The frame that wakes open comment sections. */
  datatype Frame = Frame(post: string, commentID: string, parentID: Option<string>)

  /** Where a comment is stored, given what it was aimed at. */
  function StoredParentFor(repliedTo: Option<ParentComment>): string {
    match repliedTo
    case None => ""
    case Some(p) => if p.ancestor != "" then p.ancestor else p.commentID
  }

  function LoadParent(table: Table, parentID: string, post: string, readFails: bool)
    : (r: Result<ParentComment, CommentError>)
    ensures r.Success? <==>
              !readFails && parentID in table && !table[parentID].deleted && table[parentID].post == post
  {
    if readFails then Failure(ReadFailed)
    else if parentID !in table || table[parentID].deleted then Failure(ParentNotFound)
    else if table[parentID].post != post then Failure(ParentNotFound)
    else Success(ParentComment(parentID, table[parentID].entityID, table[parentID].parent))
  }

  function ActivityFrame(post: string, commentID: string, storedParentID: string): Frame {
    Frame(post, commentID, if storedParentID != "" then Some(storedParentID) else None)
  }

  // --------------------------------------------------------------------- the protocol

  datatype Phase =
    | Aimed
    | Ready(repliedTo: Option<ParentComment>)
    | Stored(commentID: string)
    | Refused(error: CommentError)

  datatype Request = Request(author: string, post: string, parentID: string, phase: Phase)

  /** What the database made of an insert: stored, refused by the membership clause, or an
      error, after which the row may be there all the same. */
  datatype InsertOutcome = Accepted | NotMember | Errored(applied: bool)

  datatype State = State(table: Table, requests: seq<Request>, frames: seq<Frame>)

  datatype Step =
    | Begin(author: string, post: string, parentID: string)
    | Load(i: nat, readFails: bool)
    | Insert(i: nat, commentID: string, outcome: InsertOutcome)
    | SoftDelete(commentID: string)

  /** A row is never written over one of the same id: with a taken id the insert either
      selects nothing, the membership clause failing, or is refused by the primary key. */
  predicate Possible(table: Table, commentID: string, outcome: InsertOutcome) {
    commentID in table ==> outcome == NotMember || outcome == Errored(false)
  }

  /** A minted id is never blank, but nothing here relies on its being new. */
  predicate Enabled(s: State, step: Step) {
    match step
    case Begin(_, _, _) => true
    case Load(i, _) => i < |s.requests| && s.requests[i].phase.Aimed?
    case Insert(i, commentID, outcome) =>
      i < |s.requests| && s.requests[i].phase.Ready? && commentID != ""
      && Possible(s.table, commentID, outcome)
    case SoftDelete(commentID) => commentID in s.table
  }

  function Advance(s: State, i: nat, phase: Phase): State
    requires i < |s.requests|
  {
    s.(requests := s.requests[i := s.requests[i].(phase := phase)])
  }

  function NewRow(r: Request): Comment
    requires r.phase.Ready?
  {
    Comment(r.post, StoredParentFor(r.phase.repliedTo), r.author, false)
  }

  function Apply(s: State, step: Step): State
    requires Enabled(s, step)
  {
    match step
    case Begin(author, post, parentID) =>
      s.(requests := s.requests + [Request(author, post, parentID, if parentID == "" then Ready(None) else Aimed)])
    case Load(i, readFails) =>
      (match LoadParent(s.table, s.requests[i].parentID, s.requests[i].post, readFails)
       case Success(p) => Advance(s, i, Ready(Some(p)))
       case Failure(error) => Advance(s, i, Refused(error)))
    case Insert(i, commentID, outcome) =>
      var r := s.requests[i];
      (match outcome
       case Accepted =>
         Advance(s, i, Stored(commentID)).(
           table := s.table[commentID := NewRow(r)],
           frames := s.frames + [ActivityFrame(r.post, commentID, StoredParentFor(r.phase.repliedTo))])
       case NotMember => Advance(s, i, Refused(PostNotFound))
       case Errored(applied) =>
         Advance(s, i, Refused(InsertFailed)).(table := if applied then s.table[commentID := NewRow(r)] else s.table))
    case SoftDelete(commentID) => s.(table := s.table[commentID := s.table[commentID].(deleted := true)])
  }

  function After(table: Table, steps: seq<Step>): Option<State> {
    if steps == [] then Some(State(table, [], []))
    else
      match After(table, steps[..|steps| - 1])
      case None => None
      case Some(s) =>
        if Enabled(s, steps[|steps| - 1]) then Some(Apply(s, steps[|steps| - 1])) else None
  }

  // --------------------------------------------------------------- two levels, one post

  /** A stored parent exists, is itself top-level, and is on the same post. */
  ghost predicate Hangs(table: Table, post: string, parent: string) {
    parent != "" ==> parent in table && table[parent].parent == "" && table[parent].post == post
  }

  ghost predicate TwoLevels(table: Table) {
    forall id :: id in table ==> id != "" && Hangs(table, table[id].post, table[id].parent)
  }

  /** The top-level comment of the thread a comment is in. */
  function ThreadOf(table: Table, id: string): string
    requires id in table
  {
    if table[id].parent == "" then id else table[id].parent
  }

  /** Where a request's row belongs: top-level when aimed at nothing, else in the thread of
      the comment aimed at, on that comment's post. */
  ghost predicate Belongs(table: Table, r: Request, parent: string) {
    if r.parentID == "" then parent == ""
    else r.parentID in table && table[r.parentID].post == r.post && parent == ThreadOf(table, r.parentID)
  }

  ghost predicate GoodRequest(table: Table, r: Request) {
    match r.phase
    case Aimed => r.parentID != ""
    case Ready(repliedTo) =>
      Belongs(table, r, StoredParentFor(repliedTo))
    case Stored(id) =>
      id in table && table[id].post == r.post && table[id].entityID == r.author && Belongs(table, r, table[id].parent)
    case Refused(_) => true
  }

  /** A frame names a stored row and that row's stored parent. */
  ghost predicate GoodFrame(table: Table, f: Frame) {
    && f.commentID in table
    && f.post == table[f.commentID].post
    && (f.parentID.None? <==> table[f.commentID].parent == "")
    && (f.parentID.Some? ==> f.parentID.value == table[f.commentID].parent)
  }

  ghost predicate Good(s: State) {
    && TwoLevels(s.table)
    && (forall i :: 0 <= i < |s.requests| ==> GoodRequest(s.table, s.requests[i]))
    && (forall k :: 0 <= k < |s.frames| ==> GoodFrame(s.table, s.frames[k]))
  }

  /** Rows are never removed and never move: only the soft-delete mark of one may be set. */
  ghost predicate Grows(a: Table, b: Table) {
    forall id :: id in a ==> id in b && (b[id] == a[id] || b[id] == a[id].(deleted := true))
  }

  lemma StepGrows(s: State, step: Step)
    requires Enabled(s, step)
    ensures Grows(s.table, Apply(s, step).table)
  {
  }

  lemma BelongsGrows(a: Table, b: Table, r: Request, parent: string)
    requires Grows(a, b) && Belongs(a, r, parent)
    ensures Belongs(b, r, parent)
  {
  }

  lemma RequestGrows(a: Table, b: Table, r: Request)
    requires Grows(a, b) && GoodRequest(a, r)
    ensures GoodRequest(b, r)
  {
    hide Belongs;
    match r.phase
    case Ready(repliedTo) => BelongsGrows(a, b, r, StoredParentFor(repliedTo));
    case Stored(id) => BelongsGrows(a, b, r, a[id].parent);
    case _ =>
  }

  /** A row placed where its request belongs hangs two levels deep at most. */
  lemma InsertKeepsTwoLevels(a: Table, id: string, r: Request)
    requires TwoLevels(a) && id !in a && id != "" && r.phase.Ready?
    requires Belongs(a, r, StoredParentFor(r.phase.repliedTo))
    ensures TwoLevels(a[id := NewRow(r)])
  {
    var b, parent := a[id := NewRow(r)], NewRow(r).parent;
    if parent != "" {
      assert Hangs(a, a[r.parentID].post, a[r.parentID].parent);
    }
    forall x | x in b ensures x != "" && Hangs(b, b[x].post, b[x].parent) {
      if x != id {
        assert Hangs(a, a[x].post, a[x].parent);
      }
    }
  }

  lemma MarkKeepsTwoLevels(a: Table, id: string)
    requires TwoLevels(a) && id in a
    ensures TwoLevels(a[id := a[id].(deleted := true)])
  {
    var b := a[id := a[id].(deleted := true)];
    forall x | x in b ensures x != "" && Hangs(b, b[x].post, b[x].parent) {
      assert Hangs(a, a[x].post, a[x].parent);
    }
  }

  lemma StepKeepsTwoLevels(s: State, step: Step)
    requires Good(s) && Enabled(s, step)
    ensures TwoLevels(Apply(s, step).table)
  {
    hide TwoLevels, Belongs, GoodFrame, LoadParent;
    match step
    case Insert(i, commentID, outcome) =>
      assert GoodRequest(s.table, s.requests[i]);
      if commentID !in s.table {
        InsertKeepsTwoLevels(s.table, commentID, s.requests[i]);
      }
    case SoftDelete(commentID) => MarkKeepsTwoLevels(s.table, commentID);
    case _ =>
  }

  /** The request a step moves ends in a good phase. */
  lemma StepKeepsRequest(s: State, step: Step, i: nat)
    requires Good(s) && Enabled(s, step) && i < |Apply(s, step).requests|
    ensures GoodRequest(Apply(s, step).table, Apply(s, step).requests[i])
  {
    var t := Apply(s, step);
    if i < |s.requests| && t.requests[i] == s.requests[i] {
      assert GoodRequest(s.table, s.requests[i]);
      StepGrows(s, step);
      hide Apply, Good, GoodRequest;
      RequestGrows(s.table, t.table, s.requests[i]);
    } else {
      OwnStepKeepsRequest(s, step, i);
    }
  }

  lemma OwnStepKeepsRequest(s: State, step: Step, i: nat)
    requires Good(s) && Enabled(s, step) && i < |Apply(s, step).requests|
    requires i < |s.requests| ==> Apply(s, step).requests[i] != s.requests[i]
    ensures GoodRequest(Apply(s, step).table, Apply(s, step).requests[i])
  {
    hide TwoLevels, GoodFrame;
    match step
    case Load(_, _) => assert GoodRequest(s.table, s.requests[i]);
    case Insert(_, commentID, _) =>
      assert GoodRequest(s.table, s.requests[i]);
      StepGrows(s, step);
      BelongsGrows(s.table, Apply(s, step).table, s.requests[i], StoredParentFor(s.requests[i].phase.repliedTo));
    case _ =>
  }

  lemma StepKeepsFrame(s: State, step: Step, k: nat)
    requires Good(s) && Enabled(s, step) && k < |Apply(s, step).frames|
    ensures GoodFrame(Apply(s, step).table, Apply(s, step).frames[k])
  {
    hide TwoLevels, GoodRequest;
    StepGrows(s, step);
    if k < |s.frames| {
      assert GoodFrame(s.table, s.frames[k]);
      assert Apply(s, step).frames[k] == s.frames[k];
    }
  }

  lemma StepKeepsGood(s: State, step: Step)
    requires Good(s) && Enabled(s, step)
    ensures Good(Apply(s, step))
  {
    hide Apply, TwoLevels, GoodRequest, GoodFrame;
    StepKeepsTwoLevels(s, step);
    forall i | 0 <= i < |Apply(s, step).requests|
      ensures GoodRequest(Apply(s, step).table, Apply(s, step).requests[i])
    {
      StepKeepsRequest(s, step, i);
    }
    forall k | 0 <= k < |Apply(s, step).frames|
      ensures GoodFrame(Apply(s, step).table, Apply(s, step).frames[k])
    {
      StepKeepsFrame(s, step, k);
    }
  }

  /** In every run from a well-formed table, every stored parent exists, is top-level and is
      on its comment's post; every stored request is in the thread it was aimed at; and every
      frame names its row's stored parent. */
  lemma {:induction false} RunsKeepGood(table: Table, steps: seq<Step>)
    requires TwoLevels(table) && After(table, steps).Some?
    ensures Good(After(table, steps).value)
  {
    hide Apply, Enabled, TwoLevels;
    if steps != [] {
      RunsKeepGood(table, steps[..|steps| - 1]);
      StepKeepsGood(After(table, steps[..|steps| - 1]).value, steps[|steps| - 1]);
    }
  }

  // -------------------------------------------------------------- deletes only ever mark

  lemma GrowsTransitive(a: Table, b: Table, c: Table)
    requires Grows(a, b) && Grows(b, c)
    ensures Grows(a, c)
  {
  }

  /** Throughout a run no comment is removed, moved to another thread or post, or undeleted. */
  lemma {:induction false} RunsOnlyGrow(table: Table, steps: seq<Step>, m: nat)
    requires After(table, steps).Some? && m <= |steps|
    ensures After(table, steps[..m]).Some?
    ensures Grows(After(table, steps[..m]).value.table, After(table, steps).value.table)
    decreases |steps|
  {
    hide Apply, Enabled, Grows;
    if m == |steps| {
      assert steps[..m] == steps;
      assert Grows(After(table, steps).value.table, After(table, steps).value.table) by {
        Reflexive(After(table, steps).value.table);
      }
    } else {
      var front, s := steps[..|steps| - 1], After(table, steps[..|steps| - 1]).value;
      RunsOnlyGrow(table, front, m);
      assert front[..m] == steps[..m];
      StepGrows(s, steps[|steps| - 1]);
      GrowsTransitive(After(table, steps[..m]).value.table, s.table, After(table, steps).value.table);
    }
  }

  lemma Reflexive(a: Table)
    ensures Grows(a, a)
  {
  }

  // ------------------------------------------------------------------- the write path

  datatype Created = Created(commentID: string, parentCommentID: string, repliedTo: Option<ParentComment>)

  /** The comments table as one caller uses it. */
  class CommentTable {
    var rows: Table
    var frames: seq<Frame>

    constructor (initial: Table)
      ensures rows == initial && frames == []
    {
      rows, frames := initial, [];
    }

    method LoadParentComment(parentID: string, post: string, readFails: bool)
      returns (r: Result<ParentComment, CommentError>)
      ensures r == LoadParent(rows, parentID, post, readFails)
    {
      if readFails {
        return Failure(ReadFailed);
      }
      if parentID !in rows || rows[parentID].deleted {
        return Failure(ParentNotFound);
      }
      var row := rows[parentID];
      if row.post != post {
        return Failure(ParentNotFound);
      }
      return Success(ParentComment(parentID, row.entityID, row.parent));
    }

    /** Creates a comment with no other writer between its load and its insert. */
    method CreateComment(
      author: string, post: string, parentID: string, commentID: string, readFails: bool, outcome: InsertOutcome)
      returns (r: Result<Created, CommentError>)
      requires commentID != "" && Possible(rows, commentID, outcome)
      modifies this
      ensures Undisturbed(old(rows), author, post, parentID, commentID, readFails, outcome).Some?
      ensures var s := Undisturbed(old(rows), author, post, parentID, commentID, readFails, outcome).value;
              rows == s.table && frames == old(frames) + s.frames
      ensures r.Success? ==>
                var s := Undisturbed(old(rows), author, post, parentID, commentID, readFails, outcome).value;
                s.requests[0].phase == Stored(commentID)
                && r.value.parentCommentID == rows[commentID].parent
      ensures r.Failure? ==>
                var s := Undisturbed(old(rows), author, post, parentID, commentID, readFails, outcome).value;
                s.requests[0].phase == Refused(r.error)
      // Field by field: the answer, the row, and the frame.
      ensures r.Success? ==>
                && r.value.commentID == commentID
                && commentID in rows && rows == old(rows)[commentID := rows[commentID]]
                && rows[commentID].post == post && rows[commentID].entityID == author && !rows[commentID].deleted
                && rows[commentID].parent == r.value.parentCommentID
      ensures r.Success? && parentID == "" ==> r.value.repliedTo == None && r.value.parentCommentID == ""
      ensures r.Success? && parentID != "" ==>
                && parentID in old(rows) && r.value.repliedTo.Some?
                && r.value.repliedTo.value.commentID == parentID
                && r.value.repliedTo.value.entityID == old(rows)[parentID].entityID
                && r.value.parentCommentID
                   == if old(rows)[parentID].parent != "" then old(rows)[parentID].parent else parentID
      ensures r.Success? ==>
                && |frames| == |old(frames)| + 1 && old(frames) <= frames
                && frames[|old(frames)|].post == post && frames[|old(frames)|].commentID == commentID
                && frames[|old(frames)|].parentID
                   == if r.value.parentCommentID == "" then None else Some(r.value.parentCommentID)
      ensures var usable := parentID == ""
                            || (!readFails && parentID in old(rows) && !old(rows)[parentID].deleted
                                && old(rows)[parentID].post == post);
              && (r.Success? <==> usable && outcome == Accepted)
              && (!usable ==> r == Failure(if readFails then ReadFailed else ParentNotFound))
              && (usable && outcome == NotMember ==> r == Failure(PostNotFound))
              && (usable && outcome.Errored? ==> r == Failure(InsertFailed))
              && (r.Failure? ==> frames == old(frames) && (rows == old(rows) || (usable && outcome == Errored(true))))
    {
      Unfolded(rows, author, post, parentID, commentID, readFails, outcome);
      hide Undisturbed;
      var repliedTo := None;
      if parentID != "" {
        var loaded := LoadParentComment(parentID, post, readFails);
        match loaded {
          case Failure(error) => return Failure(error);
          case Success(p) => repliedTo := Some(p);
        }
      }
      var storedParentID := StoredParentFor(repliedTo);
      var row := Comment(post, storedParentID, author, false);
      match outcome {
        case Errored(applied) =>
          if applied {
            rows := rows[commentID := row];
          }
          return Failure(InsertFailed);
        case NotMember =>
          return Failure(PostNotFound);
        case Accepted =>
          rows := rows[commentID := row];
      }
      frames := frames + [ActivityFrame(post, commentID, StoredParentFor(repliedTo))];
      return Success(Created(commentID, storedParentID, repliedTo));
    }
  }

  ghost function LoadSteps(author: string, post: string, parentID: string, readFails: bool): seq<Step> {
    [Begin(author, post, parentID)] + if parentID != "" then [Load(0, readFails)] else []
  }

  /** The steps of one creation, in order: the insert only when the load went through. */
  ghost function CreationSteps(
    table: Table, post: string, author: string, parentID: string, commentID: string, readFails: bool,
    outcome: InsertOutcome): seq<Step>
  {
    LoadSteps(author, post, parentID, readFails)
    + (if parentID == "" || LoadParent(table, parentID, post, readFails).Success?
       then [Insert(0, commentID, outcome)] else [])
  }

  /** The run of the protocol in which one creation is alone. */
  ghost function Undisturbed(
    table: Table, author: string, post: string, parentID: string, commentID: string, readFails: bool,
    outcome: InsertOutcome): Option<State>
  {
    After(table, CreationSteps(table, post, author, parentID, commentID, readFails, outcome))
  }

  lemma AfterSnoc(table: Table, steps: seq<Step>, last: Step)
    requires After(table, steps).Some? && Enabled(After(table, steps).value, last)
    ensures After(table, steps + [last]) == Some(Apply(After(table, steps).value, last))
  {
    assert (steps + [last])[..|steps|] == steps;
  }

  /** What that run comes to. */
  lemma Unfolded(
    table: Table, author: string, post: string, parentID: string, commentID: string, readFails: bool,
    outcome: InsertOutcome)
    requires commentID != "" && Possible(table, commentID, outcome)
    ensures var loaded := LoadParent(table, parentID, post, readFails);
            var repliedTo := if parentID != "" && loaded.Success? then Some(loaded.value) else None;
            var row := Comment(post, StoredParentFor(repliedTo), author, false);
            Undisturbed(table, author, post, parentID, commentID, readFails, outcome)
            == if parentID != "" && loaded.Failure? then
                 Some(State(table, [Request(author, post, parentID, Refused(loaded.error))], []))
               else match outcome
                 case Accepted =>
                   Some(State(table[commentID := row], [Request(author, post, parentID, Stored(commentID))],
                              [ActivityFrame(post, commentID, row.parent)]))
                 case NotMember => Some(State(table, [Request(author, post, parentID, Refused(PostNotFound))], []))
                 case Errored(applied) =>
                   Some(State(if applied then table[commentID := row] else table,
                              [Request(author, post, parentID, Refused(InsertFailed))], []))
  {
    hide After, Apply, LoadParent, StoredParentFor;
    LoadedAlone(table, author, post, parentID, readFails);
    if parentID == "" || LoadParent(table, parentID, post, readFails).Success? {
      var steps := LoadSteps(author, post, parentID, readFails);
      var r := LoadedRequest(table, author, post, parentID, readFails);
      InsertAlone(State(table, [r], []), commentID, outcome);
      AfterSnoc(table, steps, Insert(0, commentID, outcome));
    } else {
      assert LoadSteps(author, post, parentID, readFails) + [] == LoadSteps(author, post, parentID, readFails);
    }
  }

  /** What the load leaves of the request. */
  ghost function LoadedRequest(table: Table, author: string, post: string, parentID: string, readFails: bool): Request {
    Request(author, post, parentID,
            if parentID == "" then Ready(None)
            else match LoadParent(table, parentID, post, readFails)
              case Success(p) => Ready(Some(p))
              case Failure(error) => Refused(error))
  }

  lemma LoadedAlone(table: Table, author: string, post: string, parentID: string, readFails: bool)
    ensures After(table, LoadSteps(author, post, parentID, readFails))
            == Some(State(table, [LoadedRequest(table, author, post, parentID, readFails)], []))
  {
    NoSteps(table);
    hide After, LoadParent;
    var begin := Begin(author, post, parentID);
    AfterSnoc(table, [], begin);
    assert [] + [begin] == [begin];
    if parentID == "" {
      assert [begin] + [] == [begin];
    } else {
      AfterSnoc(table, [begin], Load(0, readFails));
    }
    var requests := After(table, LoadSteps(author, post, parentID, readFails)).value.requests;
    assert requests == [requests[0]];
  }

  lemma InsertAlone(s: State, commentID: string, outcome: InsertOutcome)
    requires |s.requests| == 1 && s.frames == [] && Enabled(s, Insert(0, commentID, outcome))
    ensures var r := s.requests[0];
            Apply(s, Insert(0, commentID, outcome))
            == match outcome
               case Accepted =>
                 State(s.table[commentID := NewRow(r)], [r.(phase := Stored(commentID))],
                       [ActivityFrame(r.post, commentID, NewRow(r).parent)])
               case NotMember => State(s.table, [r.(phase := Refused(PostNotFound))], [])
               case Errored(applied) =>
                 State(if applied then s.table[commentID := NewRow(r)] else s.table,
                       [r.(phase := Refused(InsertFailed))], [])
  {
    var t := Apply(s, Insert(0, commentID, outcome));
    match outcome
    case Accepted =>
      assert t.requests == [s.requests[0].(phase := Stored(commentID))];
      assert t.frames == [ActivityFrame(s.requests[0].post, commentID, NewRow(s.requests[0]).parent)];
    case NotMember =>
      assert t.requests == [s.requests[0].(phase := Refused(PostNotFound))];
    case Errored(_) =>
      assert t.requests == [s.requests[0].(phase := Refused(InsertFailed))];
  }

  lemma NoSteps(table: Table)
    ensures After(table, []) == Some(State(table, [], []))
  {
  }
}
