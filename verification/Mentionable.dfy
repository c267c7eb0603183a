/** Turning the handles of a comment into the entities it may notify: candidate handles,
    resolution against the directory, blocks in either direction, and the cap. */
module Mentionable {
  import opened Collections
  import TextScan

  const MAX_MENTIONS := 20

  datatype MentionedEntity = MentionedEntity(entityID: string, handle: string)

  /** One row of the three namespaces a handle can name; `visible` is the bar each applies. */
  datatype Listing = Listing(entityID: string, handle: string, visible: bool)

  datatype Block = Block(blocker: string, target: string)

  datatype MentionError = LookupFailed | BlocksUnreadable

  // ------------------------------------------------------------------------ candidates

  /** The text without its trailing dots. */
  function TrimDots(s: string): (r: string)
    ensures r <= s && (r == "" || r[|r| - 1] != '.')
    ensures forall i :: |r| <= i < |s| ==> s[i] == '.'
  {
    if s != "" && s[|s| - 1] == '.' then TrimDots(s[..|s| - 1]) else s
  }

  function Forms(handles: seq<string>): seq<string> {
    if handles == [] then []
    else
      var handle := ToLower(handles[|handles| - 1]);
      Forms(handles[..|handles| - 1]) + [handle, TrimDots(handle)]
  }

  /** Every form of every handle, lowercased, blanks and repeats dropped. */
  ghost function AllCandidates(handles: seq<string>): seq<string> {
    Dedup(NonBlank(Forms(handles)))
  }

  function Offer(candidates: seq<string>, candidate: string): seq<string> {
    if candidate == "" || candidate in candidates then candidates else candidates + [candidate]
  }

  /** Candidates as the loop collects them: handle by handle, until there are twenty. */
  function Candidates(handles: seq<string>): seq<string> {
    if handles == [] then []
    else
      var front := Candidates(handles[..|handles| - 1]);
      if |front| >= MAX_MENTIONS then front
      else
        var handle := ToLower(handles[|handles| - 1]);
        Offer(Offer(front, handle), TrimDots(handle))
  }

  lemma AllCandidatesStep(handles: seq<string>)
    requires handles != []
    ensures var handle := ToLower(handles[|handles| - 1]);
            AllCandidates(handles)
            == Offer(Offer(AllCandidates(handles[..|handles| - 1]), handle), TrimDots(handle))
  {
    hide Dedup, NonBlank, ToLower, TrimDots;
    var forms, handle := Forms(handles[..|handles| - 1]), ToLower(handles[|handles| - 1]);
    assert forms + [handle, TrimDots(handle)] == (forms + [handle]) + [TrimDots(handle)];
    OfferIsDedup(forms, handle);
    OfferIsDedup(forms + [handle], TrimDots(handle));
  }

  /** They are the lower-case handles and those without their trailing dots. */
  lemma {:induction false} AllCandidatesMean(handles: seq<string>, c: string)
    ensures c in AllCandidates(handles) <==>
              c != "" && exists h :: h in handles && (c == ToLower(h) || c == TrimDots(ToLower(h)))
  {
    hide ToLower, TrimDots, NoRepeats;
    if handles != [] {
      var front, last := handles[..|handles| - 1], handles[|handles| - 1];
      assert handles == front + [last];
      AllCandidatesMean(front, c);
      AllCandidatesStep(handles);
      hide AllCandidates;
    }
  }

  lemma OfferIsDedup(forms: seq<string>, x: string)
    ensures Dedup(NonBlank(forms + [x])) == Offer(Dedup(NonBlank(forms)), x)
  {
    hide NoRepeats, Dedup, NonBlank;
    NonBlankSnoc(forms, x);
    DedupSnoc(NonBlank(forms), x);
    if x == "" {
      assert NonBlank(forms) + [] == NonBlank(forms);
    } else {
      assert x in NonBlank(forms) <==> x in Dedup(NonBlank(forms));
    }
  }

  /** The collected candidates are the first of all candidates in order: all of them when
      fewer than twenty, and never more than twenty-one. */
  lemma {:induction false} CandidatesAreFirst(handles: seq<string>)
    ensures Candidates(handles) <= AllCandidates(handles)
    ensures |Candidates(handles)| < 20 ==> Candidates(handles) == AllCandidates(handles)
    ensures |Candidates(handles)| <= 21
  {
    if handles != [] {
      CandidatesAreFirst(handles[..|handles| - 1]);
      hide AllCandidates, ToLower, TrimDots;
      AllCandidatesStep(handles);
    } else {
      assert Forms(handles) == [];
    }
  }

  /** Cutting the list at twenty never separates a handle from its form without dots. */
  lemma {:induction false} CandidatesClosed(handles: seq<string>, c: string)
    requires c in Candidates(handles)
    ensures c != "" && (TrimDots(c) == "" || TrimDots(c) in Candidates(handles))
  {
    var front, handle := Candidates(handles[..|handles| - 1]), ToLower(handles[|handles| - 1]);
    if c in front {
      CandidatesClosed(handles[..|handles| - 1], c);
    } else {
      assert c == handle || c == TrimDots(handle);
      assert TrimDots(TrimDots(handle)) == TrimDots(handle);
    }
  }

  lemma CandidatesStep(handles: seq<string>, i: nat)
    requires i < |handles|
    ensures Candidates(handles[..i + 1]) ==
            if |Candidates(handles[..i])| >= MAX_MENTIONS then Candidates(handles[..i])
            else Offer(Offer(Candidates(handles[..i]), ToLower(handles[i])), TrimDots(ToLower(handles[i])))
  {
    hide Offer, ToLower, TrimDots;
    assert handles[..i + 1][..i] == handles[..i];
  }

  method MentionCandidates(text: string) returns (candidates: seq<string>)
    ensures candidates == Candidates(TextScan.Mentions(text))
  {
    var handles := TextScan.ExtractMentions(text);
    candidates := [];
    for i := 0 to |handles|
      invariant candidates == Candidates(handles[..i])
      invariant |candidates| < MAX_MENTIONS
    {
      hide ToLower, TrimDots, Candidates;
      CandidatesStep(handles, i);
      var handle := ToLower(handles[i]);
      var forms := [handle, TrimDots(handle)];
      ghost var before := candidates;
      for k := 0 to |forms|
        invariant candidates == if k == 0 then before
                                else if k == 1 then Offer(before, handle)
                                else Offer(Offer(before, handle), TrimDots(handle))
      {
        if forms[k] == "" || forms[k] in candidates {
          continue;
        }
        candidates := candidates + [forms[k]];
      }
      if |candidates| >= MAX_MENTIONS {
        FullStaysFull(handles, i + 1);
        return;
      }
    }
    assert handles[..|handles|] == handles;
  }

  /** Once there are twenty candidates, no later handle of the text is offered. */
  lemma {:induction false} FullStaysFull(handles: seq<string>, n: nat)
    requires n <= |handles| && |Candidates(handles[..n])| >= MAX_MENTIONS
    ensures Candidates(handles) == Candidates(handles[..n])
  {
    if n == |handles| {
      assert handles[..n] == handles;
    } else {
      var front := handles[..|handles| - 1];
      assert front[..n] == handles[..n];
      FullStaysFull(front, n);
    }
  }

  // ------------------------------------------------------------------------ resolution

  /** The rows the directory lookup returns. */
  function Rows(directory: seq<Listing>, candidates: seq<string>): (rows: seq<MentionedEntity>)
    ensures forall e :: e in rows <==>
              exists l :: l in directory && l.visible && ToLower(l.handle) in candidates
                          && e == MentionedEntity(l.entityID, ToLower(l.handle))
  {
    if directory == [] then []
    else
      var l := directory[0];
      assert directory == [l] + directory[1..];
      (if l.visible && ToLower(l.handle) in candidates then [MentionedEntity(l.entityID, ToLower(l.handle))] else [])
      + Rows(directory[1..], candidates)
  }

  function IDs(entities: seq<MentionedEntity>): (ids: seq<string>)
    ensures |ids| == |entities|
    ensures forall i :: 0 <= i < |ids| ==> ids[i] == entities[i].entityID
  {
    if entities == [] then [] else IDs(entities[..|entities| - 1]) + [entities[|entities| - 1].entityID]
  }

  lemma IDsSnoc(entities: seq<MentionedEntity>, e: MentionedEntity)
    ensures IDs(entities + [e]) == IDs(entities) + [e.entityID]
  {
    assert (entities + [e])[..|entities|] == entities;
  }

  function Without(ids: seq<string>, excluded: set<string>): (kept: seq<string>)
    ensures forall x :: x in kept <==> x in ids && x !in excluded
  {
    if ids == [] then []
    else
      var front, last := ids[..|ids| - 1], ids[|ids| - 1];
      assert ids == front + [last];
      Without(front, excluded) + if last in excluded then [] else [last]
  }

  lemma WithoutSnoc(ids: seq<string>, excluded: set<string>, x: string)
    ensures Without(ids + [x], excluded) == Without(ids, excluded) + if x in excluded then [] else [x]
  {
    assert (ids + [x])[..|ids|] == ids;
  }

  lemma {:induction false} WithoutPrefix(ids: seq<string>, excluded: set<string>, n: nat)
    requires n <= |ids|
    ensures Without(ids[..n], excluded) <= Without(ids, excluded)
  {
    if n == |ids| {
      assert ids[..n] == ids;
    } else {
      var front := ids[..|ids| - 1];
      assert front[..n] == ids[..n];
      WithoutPrefix(front, excluded, n);
    }
  }

  lemma {:induction false} WithoutKeepsDistinct(ids: seq<string>, excluded: set<string>)
    requires NoRepeats(ids)
    ensures NoRepeats(Without(ids, excluded))
  {
    if ids != [] {
      WithoutKeepsDistinct(ids[..|ids| - 1], excluded);
    }
  }

  ghost predicate Among(a: seq<MentionedEntity>, b: seq<MentionedEntity>) {
    forall e :: e in a ==> e in b
  }

  lemma AmongSnoc(a: seq<MentionedEntity>, b: seq<MentionedEntity>, i: nat)
    requires Among(a, b) && i < |b|
    ensures Among(a + [b[i]], b)
  {
  }

  /** The entities a lookup names, once each, the author left out. */
  ghost function NamedIDs(rows: seq<MentionedEntity>, author: string): seq<string> {
    Dedup(Without(IDs(rows), {"", author}))
  }

  ghost predicate InBlock(blocks: seq<Block>, a: string, b: string) {
    Block(a, b) in blocks || Block(b, a) in blocks
  }

  method BlockedEntityIDs(blocks: seq<Block>, entityID: string) returns (blocked: set<string>)
    ensures forall x :: x in blocked <==>
              x != entityID && (Block(x, entityID) in blocks || Block(entityID, x) in blocks)
  {
    blocked := {};
    for i := 0 to |blocks|
      invariant forall x :: x != entityID ==> (x in blocked <==> InBlock(blocks[..i], x, entityID))
    {
      var b := blocks[i];
      assert blocks[..i + 1] == blocks[..i] + [b];
      if b.blocker == entityID || b.target == entityID {
        blocked := blocked + {b.blocker, b.target};
      }
    }
    assert blocks[..|blocks|] == blocks;
    blocked := blocked - {entityID};
  }

  ghost function BlockedSet(blocks: seq<Block>, author: string): (blocked: set<string>)
    ensures forall x :: x in blocked <==> x != author && InBlock(blocks, x, author)
  {
    var ids := (set b | b in blocks :: b.blocker) + (set b | b in blocks :: b.target);
    set x | x in ids && x != author && InBlock(blocks, x, author)
  }

  function First(n: nat, ids: seq<string>): (r: seq<string>)
    ensures r <= ids && |r| == if |ids| < n then |ids| else n
  {
    if |ids| <= n then ids else ids[..n]
  }

  lemma FirstOfPrefix(n: nat, a: seq<string>, b: seq<string>)
    requires a <= b && |a| == n
    ensures First(n, b) == a
  {
  }

  /** Who a text notifies, as one expression over the directory and the blocks. */
  ghost function Mentioned(text: string, author: string, directory: seq<Listing>, blocks: seq<Block>): seq<string> {
    First(MAX_MENTIONS,
          Without(NamedIDs(Rows(directory, Candidates(TextScan.Mentions(text))), author), BlockedSet(blocks, author)))
  }

  lemma NamedStep(rows: seq<MentionedEntity>, i: nat, author: string)
    requires i < |rows|
    ensures var x, ids := rows[i].entityID, NamedIDs(rows[..i], author);
            NamedIDs(rows[..i + 1], author) == if x == "" || x == author || x in ids then ids else ids + [x]
  {
    hide NoRepeats, Dedup, Without;
    var x, front := rows[i].entityID, IDs(rows[..i]);
    assert rows[..i + 1] == rows[..i] + [rows[i]];
    IDsSnoc(rows[..i], rows[i]);
    WithoutSnoc(front, {"", author}, x);
    DedupSnoc(Without(front, {"", author}), x);
    assert Without(front, {"", author}) + [] == Without(front, {"", author});
  }

  /** Keeps the first row of every entity other than the author. */
  method DistinctEntities(rows: seq<MentionedEntity>, author: string) returns (resolved: seq<MentionedEntity>)
    ensures IDs(resolved) == NamedIDs(rows, author)
    ensures Among(resolved, rows)
  {
    resolved := [];
    var seen: set<string> := {};
    for i := 0 to |rows|
      invariant IDs(resolved) == NamedIDs(rows[..i], author)
      invariant forall x :: x in seen <==> x in IDs(resolved)
      invariant Among(resolved, rows)
    {
      hide NoRepeats, NamedIDs, IDs, Among;
      var row := rows[i];
      NamedStep(rows, i, author);
      if row.entityID == "" || row.entityID == author || row.entityID in seen {
        continue;
      }
      IDsSnoc(resolved, row);
      AmongSnoc(resolved, rows, i);
      seen := seen + {row.entityID};
      resolved := resolved + [row];
    }
    assert rows[..|rows|] == rows;
  }

  lemma UnblockedStep(resolved: seq<MentionedEntity>, i: nat, blocked: set<string>)
    requires i < |resolved|
    ensures var x, ids := resolved[i].entityID, Without(IDs(resolved[..i]), blocked);
            Without(IDs(resolved[..i + 1]), blocked) == if x in blocked then ids else ids + [x]
  {
    assert resolved[..i + 1] == resolved[..i] + [resolved[i]];
    IDsSnoc(resolved[..i], resolved[i]);
    WithoutSnoc(IDs(resolved[..i]), blocked, resolved[i].entityID);
  }

  lemma UnblockedPrefix(resolved: seq<MentionedEntity>, n: nat, blocked: set<string>)
    requires n <= |resolved|
    ensures Without(IDs(resolved[..n]), blocked) <= Without(IDs(resolved), blocked)
  {
    assert IDs(resolved)[..n] == IDs(resolved[..n]);
    WithoutPrefix(IDs(resolved), blocked, n);
  }

  /** The first twenty that are not blocked. */
  method KeepUnblocked(resolved: seq<MentionedEntity>, blocked: set<string>) returns (kept: seq<MentionedEntity>)
    ensures IDs(kept) == First(MAX_MENTIONS, Without(IDs(resolved), blocked))
    ensures |kept| <= 20 && IDs(kept) <= Without(IDs(resolved), blocked)
    ensures Among(kept, resolved)
  {
    kept := [];
    for i := 0 to |resolved|
      invariant IDs(kept) == Without(IDs(resolved[..i]), blocked)
      invariant |kept| < MAX_MENTIONS
      invariant Among(kept, resolved)
    {
      hide Without, IDs, Among, First;
      var entity := resolved[i];
      UnblockedStep(resolved, i, blocked);
      IDsSnoc(kept, entity);
      if entity.entityID in blocked {
        continue;
      }
      AmongSnoc(kept, resolved, i);
      kept := kept + [entity];
      if |kept| == MAX_MENTIONS {
        UnblockedPrefix(resolved, i + 1, blocked);
        FirstOfPrefix(MAX_MENTIONS, IDs(kept), Without(IDs(resolved), blocked));
        return;
      }
    }
    assert resolved[..|resolved|] == resolved;
  }

  method ResolveMentions(
    text: string, author: string, directory: seq<Listing>, blocks: seq<Block>, lookupFails: bool, blocksFail: bool)
    returns (r: Result<seq<MentionedEntity>, MentionError>)
    ensures r.Success? ==> IDs(r.value) == Mentioned(text, author, directory, blocks)
    ensures r.Success? ==>
              Among(r.value, Rows(directory, Candidates(TextScan.Mentions(text))))
    ensures r.Success? ==>
              && |r.value| <= 20
              && forall e :: e in r.value ==>
                   && Notifiable(text, author, directory, blocks, e.entityID)
                   && exists l ::
                        l in directory && l.visible && l.entityID == e.entityID && ToLower(l.handle) == e.handle
    ensures r.Failure? <==>
            var candidates := Candidates(TextScan.Mentions(text));
            candidates != []
            && (lookupFails || (blocksFail && NamedIDs(Rows(directory, candidates), author) != []))
  {
    hide TextScan.Mentions, Candidates, NamedIDs, Without, Dedup, NoRepeats, BlockedSet;
    NothingToKeep(BlockedSet(blocks, author));
    var candidates := MentionCandidates(text);
    if candidates == [] {
      NobodyNamed(directory, author);
      return Success([]);
    }
    if lookupFails {
      return Failure(LookupFailed);
    }
    var rows := Rows(directory, candidates);
    var resolved := DistinctEntities(rows, author);
    if resolved == [] {
      return Success([]);
    }
    if blocksFail {
      return Failure(BlocksUnreadable);
    }
    var blocked := BlockedEntityIDs(blocks, author);
    assert blocked == BlockedSet(blocks, author);
    var kept := KeepUnblocked(resolved, blocked);
    MentionedMeaning(text, author, directory, blocks);
    hide Notifiable, Mentioned, ToLower;
    forall e | e in kept ensures e.entityID in Mentioned(text, author, directory, blocks) {
      var i :| 0 <= i < |kept| && kept[i] == e;
      assert IDs(kept)[i] == e.entityID;
    }
    return Success(kept);
  }

  lemma NothingToKeep(excluded: set<string>)
    ensures Without([], excluded) == [] && IDs([]) == [] && First(MAX_MENTIONS, []) == []
  {
  }

  lemma {:induction false} NobodyNamed(directory: seq<Listing>, author: string)
    ensures Rows(directory, []) == [] && NamedIDs(Rows(directory, []), author) == []
  {
    if directory != [] {
      NobodyNamed(directory[1..], author);
    }
  }

  /** A visible directory row has one of the handles, in any case, or it without the dots that
      end it. */
  ghost predicate Names(handles: seq<string>, l: Listing) {
    && l.visible && ToLower(l.handle) != ""
    && exists h :: h in handles && (ToLower(l.handle) == ToLower(h) || ToLower(l.handle) == TrimDots(ToLower(h)))
  }

  /** Some handle of the text, the twenty-first included, names the entity in the directory,
      which is neither the author nor in a block with it. */
  ghost predicate Notifiable(text: string, author: string, directory: seq<Listing>, blocks: seq<Block>, x: string) {
    && x != "" && x != author && Block(x, author) !in blocks && Block(author, x) !in blocks
    && exists l :: l in directory && l.entityID == x && Names(TextScan.Mentions(text), l)
  }

  /** The rows found for all candidates are those of the listings the handles name. */
  lemma RowsAreNamed(directory: seq<Listing>, handles: seq<string>, x: string)
    ensures x in IDs(Rows(directory, AllCandidates(handles))) <==>
              exists l :: l in directory && l.entityID == x && Names(handles, l)
  {
    var candidates := AllCandidates(handles);
    var rows := Rows(directory, candidates);
    hide AllCandidates, Rows, IDs, ToLower, TrimDots;
    forall l | l in directory
      ensures l.visible && ToLower(l.handle) in candidates <==> Names(handles, l)
    {
      AllCandidatesMean(handles, ToLower(l.handle));
    }
    if l :| l in directory && l.entityID == x && Names(handles, l) {
      var e := MentionedEntity(l.entityID, ToLower(l.handle));
      assert e in rows;
      var i :| 0 <= i < |rows| && rows[i] == e;
      assert IDs(rows)[i] == x;
    }
    if x in IDs(rows) {
      var i :| 0 <= i < |rows| && IDs(rows)[i] == x;
      assert rows[i] in rows;
    }
  }

  lemma RowsOfMore(directory: seq<Listing>, a: seq<string>, b: seq<string>, x: string)
    requires a <= b && x in IDs(Rows(directory, a))
    ensures x in IDs(Rows(directory, b))
  {
    var i :| 0 <= i < |Rows(directory, a)| && Rows(directory, a)[i].entityID == x;
    var e := Rows(directory, a)[i];
    assert e in Rows(directory, a);
    assert e in Rows(directory, b);
    var j :| 0 <= j < |Rows(directory, b)| && Rows(directory, b)[j] == e;
    assert IDs(Rows(directory, b))[j] == x;
  }

  /** Everyone a text notifies is named by it, in the directory, in no block relationship with
      the author either way, not the author, and listed once; at most twenty are. Nobody of
      that kind is left out while both the candidates and those kept stay below twenty. */
  lemma MentionedMeaning(text: string, author: string, directory: seq<Listing>, blocks: seq<Block>)
    ensures NoRepeats(Mentioned(text, author, directory, blocks))
    ensures |Mentioned(text, author, directory, blocks)| <= 20
    ensures forall x :: x in Mentioned(text, author, directory, blocks) ==>
              Notifiable(text, author, directory, blocks, x)
    ensures |Candidates(TextScan.Mentions(text))| < 20 && |Mentioned(text, author, directory, blocks)| < 20 ==>
              forall x :: Notifiable(text, author, directory, blocks, x) ==>
                x in Mentioned(text, author, directory, blocks)
  {
    hide TextScan.Mentions, Candidates, AllCandidates, Rows, IDs;
    var candidates := Candidates(TextScan.Mentions(text));
    var rows := Rows(directory, candidates);
    CandidatesAreFirst(TextScan.Mentions(text));
    WithoutKeepsDistinct(NamedIDs(rows, author), BlockedSet(blocks, author));
    hide Without, Dedup, Names, NoRepeats;
    forall x | Notifiable(text, author, directory, blocks, x)
      ensures x !in BlockedSet(blocks, author)
      ensures x in IDs(Rows(directory, AllCandidates(TextScan.Mentions(text))))
    {
      RowsAreNamed(directory, TextScan.Mentions(text), x);
    }
    forall x | x in Mentioned(text, author, directory, blocks)
      ensures Notifiable(text, author, directory, blocks, x)
    {
      MentionedIsNotifiable(text, author, directory, blocks, x);
    }
  }

  lemma MentionedIsNotifiable(text: string, author: string, directory: seq<Listing>, blocks: seq<Block>, x: string)
    requires x in Mentioned(text, author, directory, blocks)
    ensures Notifiable(text, author, directory, blocks, x)
  {
    hide TextScan.Mentions, Candidates, AllCandidates, Rows, IDs, Without, Dedup, NoRepeats;
    CandidatesAreFirst(TextScan.Mentions(text));
    RowsOfMore(directory, Candidates(TextScan.Mentions(text)), AllCandidates(TextScan.Mentions(text)), x);
    RowsAreNamed(directory, TextScan.Mentions(text), x);
  }
}
