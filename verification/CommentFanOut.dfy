/** The notifications of one comment: the reply or post notification first, then one for every
    entity the text mentions that was not already notified. */
module CommentFanOut {
  import opened Collections
  import Mentionable

  /** What became of a notification write. An insert reported as failed may have been stored
      all the same. */
  datatype Outcome = Acknowledged | Lost | StoredUnacknowledged

  /** Who the first notification is for: the author of the comment replied to, or the post's
      author. The post's author replying to a comment notifies nobody. */
  function FirstRecipient(author: string, repliedTo: Option<string>, postAuthor: string): (r: Option<string>)
    ensures r.Some? ==> r.value != author
  {
    match repliedTo
    case Some(entityID) => if entityID != author && postAuthor != author then Some(entityID) else None
    case None => if postAuthor != author then Some(postAuthor) else None
  }

  ghost function Skipped(author: string, already: seq<string>): (r: set<string>)
    ensures forall x :: x in r <==> x == author || x in already
  {
    {author} + set x | x in already
  }

  /** Whom the mention loop tries, in order. */
  ghost function MentionTargets(mentioned: seq<string>, author: string, already: seq<string>): (r: seq<string>)
    ensures NoRepeats(r)
    ensures forall x :: x in r <==> x in mentioned && x != author && x !in already
  {
    Dedup(Mentionable.Without(mentioned, Skipped(author, already)))
  }

  /** The stored recipients among those tried, the k-th write having outcome writes(k). */
  function StoredAmong(tried: seq<string>, writes: nat -> Outcome): (r: seq<string>) {
    if tried == [] then []
    else
      StoredAmong(tried[..|tried| - 1], writes)
      + if writes(|tried| - 1).Lost? then [] else [tried[|tried| - 1]]
  }

  function AcknowledgedAmong(tried: seq<string>, writes: nat -> Outcome): (r: seq<string>) {
    if tried == [] then []
    else
      AcknowledgedAmong(tried[..|tried| - 1], writes)
      + if writes(|tried| - 1).Acknowledged? then [tried[|tried| - 1]] else []
  }

  ghost function FirstTried(author: string, repliedTo: Option<string>, postAuthor: string): seq<string> {
    match FirstRecipient(author, repliedTo, postAuthor)
    case Some(entityID) => [entityID]
    case None => []
  }

  /** Every recipient tried for one comment, in order. */
  ghost function Tried(
    author: string, repliedTo: Option<string>, postAuthor: string, mentioned: seq<string>, writes: nat -> Outcome)
    : seq<string>
  {
    var first := FirstTried(author, repliedTo, postAuthor);
    first + MentionTargets(mentioned, author, AcknowledgedAmong(first, writes))
  }

  /** The notifications collection, as one comment's fan-out writes it. */
  class NotificationStore {
    var stored: seq<string>
    var attempts: nat

    constructor ()
      ensures stored == [] && attempts == 0
    {
      stored, attempts := [], 0;
    }

    method WriteNotification(to: string, writes: nat -> Outcome) returns (ok: bool)
      modifies this
      ensures attempts == old(attempts) + 1
      ensures stored == if writes(old(attempts)).Lost? then old(stored) else old(stored) + [to]
      ensures ok == writes(old(attempts)).Acknowledged?
    {
      var outcome := writes(attempts);
      attempts := attempts + 1;
      if !outcome.Lost? {
        stored := stored + [to];
      }
      return outcome.Acknowledged?;
    }

    ghost predicate Holds(tried: seq<string>, writes: nat -> Outcome)
      reads this
    {
      attempts == |tried| && stored == StoredAmong(tried, writes)
    }

    method NotifyMentions(
      author: string, mentioned: Result<seq<string>, Mentionable.MentionError>, already: seq<string>,
      ghost tried: seq<string>, writes: nat -> Outcome)
      returns (notified: seq<string>)
      requires Holds(tried, writes) && already == AcknowledgedAmong(tried, writes)
      modifies this
      ensures var all := tried + MentionTargets(Names(mentioned), author, already);
              Holds(all, writes) && already + notified == AcknowledgedAmong(all, writes)
    {
      hide NoRepeats, Dedup, Mentionable.Without, StoredAmong, AcknowledgedAmong, Skipped;
      notified := [];
      assert already + [] == already;
      if mentioned.Failure? || |mentioned.value| == 0 {
        assert tried + [] == tried;
        NoTargets(author, already);
        return;
      }
      var names := mentioned.value;
      var skip := {author};
      for i := 0 to |already|
        invariant forall x :: x in skip <==> x == author || x in already[..i]
        modifies {}
      {
        assert already[..i + 1] == already[..i] + [already[i]];
        skip := skip + {already[i]};
      }
      assert already[..|already|] == already;
      ghost var excluded := Skipped(author, already);
      assert skip == excluded;
      ghost var done: seq<string> := [];
      assert tried + done == tried;
      NothingDone(names, author, already, skip);
      hide MentionsDone, MentionTargets;
      for i := 0 to |names|
        invariant MentionsDone(names, i, excluded, done, skip)
        invariant Holds(tried + done, writes) && already + notified == AcknowledgedAmong(tried + done, writes)
      {
        NextMention(names, i, excluded, done, skip);
        if names[i] in skip {
          continue;
        }
        skip := skip + {names[i]};
        AmongStep(tried + done, names[i], writes);
        assert tried + (done + [names[i]]) == (tried + done) + [names[i]];
        done := done + [names[i]];
        var ok := WriteNotification(names[i], writes);
        if ok {
          assert already + (notified + [names[i]]) == (already + notified) + [names[i]];
          notified := notified + [names[i]];
        }
      }
      AllMentionsDone(names, author, already, done, skip);
    }

    /** The notifications of one comment; the list is withheld on community posts. */
    method CommentFanOut(
      author: string, repliedTo: Option<string>, postAuthor: string, communityCount: int,
      mentioned: Result<seq<string>, Mentionable.MentionError>, writes: nat -> Outcome)
      returns (notified: seq<string>)
      requires stored == [] && attempts == 0
      modifies this
      ensures stored == StoredAmong(Tried(author, repliedTo, postAuthor, Names(mentioned), writes), writes)
      ensures notified == if communityCount > 0 then []
                          else AcknowledgedAmong(Tried(author, repliedTo, postAuthor, Names(mentioned), writes), writes)
      ensures repliedTo.Some? && repliedTo.value != author && postAuthor != author && !writes(0).Lost? ==>
                stored != [] && stored[0] == repliedTo.value
      ensures repliedTo.None? && postAuthor != author && !writes(0).Lost? ==>
                stored != [] && stored[0] == postAuthor
      ensures repliedTo.Some? && postAuthor in stored ==>
                postAuthor == repliedTo.value
                || (mentioned.Success? && postAuthor in mentioned.value)
      ensures postAuthor == author || repliedTo == Some(author) ==>
                forall x :: x in stored ==> mentioned.Success? && x in mentioned.value
      ensures mentioned.Success? && (forall k :: writes(k).Acknowledged?) ==>
                forall x :: x in mentioned.value && x != author ==> x in stored
      ensures author !in stored
    {
      hide StoredAmong, AcknowledgedAmong, MentionTargets, NoRepeats;
      notified := [];
      match repliedTo {
        case Some(entityID) =>
          if entityID != author && postAuthor != author {
            var ok := WriteNotification(entityID, writes);
            if ok {
              notified := notified + [entityID];
            }
          }
        case None =>
          if postAuthor != author {
            var ok := WriteNotification(postAuthor, writes);
            if ok {
              notified := notified + [postAuthor];
            }
          }
      }
      ghost var first := FirstTried(author, repliedTo, postAuthor);
      FirstOutcome(first, writes);
      var more := NotifyMentions(author, mentioned, notified, first, writes);
      notified := notified + more;
      WhoIsStored(author, repliedTo, postAuthor, mentioned, writes);
      if communityCount > 0 {
        return [];
      }
    }
  }

  /** Who is stored, told by the comment itself: the author of the comment replied to, or of
      the post when it replies to none, comes first; a post's author who replies, and whoever
      replies to themself, reaches only those mentioned. */
  lemma WhoIsStored(
    author: string, repliedTo: Option<string>, postAuthor: string,
    mentioned: Result<seq<string>, Mentionable.MentionError>, writes: nat -> Outcome)
    ensures var stored := StoredAmong(Tried(author, repliedTo, postAuthor, Names(mentioned), writes), writes);
            && (repliedTo.Some? && repliedTo.value != author && postAuthor != author && !writes(0).Lost? ==>
                  stored != [] && stored[0] == repliedTo.value)
            && (repliedTo.None? && postAuthor != author && !writes(0).Lost? ==>
                  stored != [] && stored[0] == postAuthor)
            && (repliedTo.Some? && postAuthor in stored ==>
                  postAuthor == repliedTo.value || (mentioned.Success? && postAuthor in mentioned.value))
            && (postAuthor == author || repliedTo == Some(author) ==>
                  forall x :: x in stored ==> mentioned.Success? && x in mentioned.value)
            && (mentioned.Success? && (forall k :: writes(k).Acknowledged?) ==>
                  forall x :: x in mentioned.value && x != author ==> x in stored)
            && author !in stored
  {
    var tried := Tried(author, repliedTo, postAuthor, Names(mentioned), writes);
    var first := FirstTried(author, repliedTo, postAuthor);
    hide StoredAmong, AcknowledgedAmong, MentionTargets, Tried;
    forall x | x in StoredAmong(tried, writes)
      ensures x != author && (x in first || x in Names(mentioned))
    {
      OnlyThoseConcerned(author, repliedTo, postAuthor, Names(mentioned), writes, x);
    }
    TriedBegins(author, repliedTo, postAuthor, Names(mentioned), writes);
    if first != [] && !writes(0).Lost? {
      FirstIsStored(tried, writes);
    }
    forall x | (forall k :: writes(k).Acknowledged?) && x in Names(mentioned) && x != author
      ensures x in StoredAmong(tried, writes)
    {
      MentionedIsTried(author, repliedTo, postAuthor, Names(mentioned), writes, x);
      var k :| 0 <= k < |tried| && tried[k] == x;
      assert StoredAt(tried, writes, k);
      StoredMeans(tried, writes, x);
    }
  }

  lemma TriedBegins(
    author: string, repliedTo: Option<string>, postAuthor: string, mentioned: seq<string>, writes: nat -> Outcome)
    ensures FirstTried(author, repliedTo, postAuthor) <= Tried(author, repliedTo, postAuthor, mentioned, writes)
  {
    hide MentionTargets, AcknowledgedAmong;
  }

  lemma {:induction false} FirstIsStored(tried: seq<string>, writes: nat -> Outcome)
    requires tried != [] && !writes(0).Lost?
    ensures StoredAmong(tried, writes) != [] && StoredAmong(tried, writes)[0] == tried[0]
  {
    if |tried| == 1 {
      assert tried[..0] == [];
    } else {
      FirstIsStored(tried[..|tried| - 1], writes);
    }
  }

  lemma MentionedIsTried(
    author: string, repliedTo: Option<string>, postAuthor: string, mentioned: seq<string>, writes: nat -> Outcome,
    x: string)
    requires x in mentioned && x != author
    ensures x in Tried(author, repliedTo, postAuthor, mentioned, writes)
  {
    var first := FirstTried(author, repliedTo, postAuthor);
    FirstOutcome(first, writes);
    hide MentionTargets, AcknowledgedAmong;
    var targets := MentionTargets(mentioned, author, AcknowledgedAmong(first, writes));
    assert x in targets || x in first;
  }

  function Names(mentioned: Result<seq<string>, Mentionable.MentionError>): seq<string> {
    match mentioned
    case Success(names) => names
    case Failure(_) => []
  }

  lemma NoTargets(author: string, already: seq<string>)
    ensures MentionTargets([], author, already) == [] && Dedup(Mentionable.Without([], Skipped(author, already))) == []
  {
  }

  /** Where the mention loop stands: whom it has tried, and whom it is to skip from now on. */
  ghost predicate MentionsDone(
    names: seq<string>, i: nat, excluded: set<string>, done: seq<string>, skip: set<string>)
  {
    && i <= |names| && done == Dedup(Mentionable.Without(names[..i], excluded))
    && forall x :: x in skip <==> x in excluded || x in done
  }

  lemma NothingDone(names: seq<string>, author: string, already: seq<string>, skip: set<string>)
    requires skip == Skipped(author, already)
    ensures MentionsDone(names, 0, Skipped(author, already), [], skip)
  {
    hide NoRepeats, Dedup, Mentionable.Without, Skipped;
    NoTargets(author, already);
    assert names[..0] == [];
  }

  lemma NextMention(names: seq<string>, i: nat, excluded: set<string>, done: seq<string>, skip: set<string>)
    requires MentionsDone(names, i, excluded, done, skip) && i < |names|
    ensures if names[i] in skip then MentionsDone(names, i + 1, excluded, done, skip)
            else MentionsDone(names, i + 1, excluded, done + [names[i]], skip + {names[i]})
  {
    hide NoRepeats, Dedup, Mentionable.Without;
    TargetsStep(names, i, excluded);
  }

  lemma AllMentionsDone(
    names: seq<string>, author: string, already: seq<string>, done: seq<string>, skip: set<string>)
    requires MentionsDone(names, |names|, Skipped(author, already), done, skip)
    ensures done == MentionTargets(names, author, already)
  {
    hide NoRepeats, Dedup, Mentionable.Without, Skipped;
    assert names[..|names|] == names;
  }

  lemma FirstOutcome(first: seq<string>, writes: nat -> Outcome)
    requires |first| <= 1
    ensures StoredAmong(first, writes) == if first == [] || writes(0).Lost? then [] else first
    ensures AcknowledgedAmong(first, writes) == if first == [] || !writes(0).Acknowledged? then [] else first
  {
    NobodyTried(writes);
    hide StoredAmong, AcknowledgedAmong;
    if first != [] {
      AmongStep([], first[0], writes);
      assert first == [first[0]] && [] + [first[0]] == first;
    }
  }

  lemma NobodyTried(writes: nat -> Outcome)
    ensures StoredAmong([], writes) == [] && AcknowledgedAmong([], writes) == []
  {
  }

  lemma TargetsStep(mentioned: seq<string>, i: nat, excluded: set<string>)
    requires i < |mentioned|
    ensures var x, done := mentioned[i], Dedup(Mentionable.Without(mentioned[..i], excluded));
            Dedup(Mentionable.Without(mentioned[..i + 1], excluded))
            == if x in excluded || x in done then done else done + [x]
  {
    hide NoRepeats, Dedup, Mentionable.Without;
    var front := Mentionable.Without(mentioned[..i], excluded);
    assert mentioned[..i + 1] == mentioned[..i] + [mentioned[i]];
    Mentionable.WithoutSnoc(mentioned[..i], excluded, mentioned[i]);
    DedupSnoc(front, mentioned[i]);
    assert front + [] == front;
  }

  lemma AmongStep(tried: seq<string>, x: string, writes: nat -> Outcome)
    ensures StoredAmong(tried + [x], writes)
            == if writes(|tried|).Lost? then StoredAmong(tried, writes) else StoredAmong(tried, writes) + [x]
    ensures AcknowledgedAmong(tried + [x], writes)
            == if writes(|tried|).Acknowledged? then AcknowledgedAmong(tried, writes) + [x]
               else AcknowledgedAmong(tried, writes)
  {
    assert (tried + [x])[..|tried|] == tried;
  }

  // ---------------------------------------------------------------- at most one each

  ghost predicate StoredAt(tried: seq<string>, writes: nat -> Outcome, k: nat) {
    k < |tried| && !writes(k).Lost?
  }

  /** A recipient is stored exactly when one of the writes tried for it was. */
  lemma {:induction false} StoredMeans(tried: seq<string>, writes: nat -> Outcome, x: string)
    ensures x in StoredAmong(tried, writes) <==> exists k: nat :: StoredAt(tried, writes, k) && tried[k] == x
  {
    if tried != [] {
      var front, n := tried[..|tried| - 1], |tried| - 1;
      StoredMeans(front, writes, x);
      if k: nat :| StoredAt(front, writes, k) && front[k] == x {
        assert StoredAt(tried, writes, k);
      }
      if k: nat :| StoredAt(tried, writes, k) && tried[k] == x && k < n {
        assert StoredAt(front, writes, k) && front[k] == x;
      }
      if StoredAt(tried, writes, n) && tried[n] == x {
        assert x in StoredAmong(tried, writes);
      }
    }
  }

  /** Two stored writes for one recipient. */
  ghost predicate Twice(tried: seq<string>, writes: nat -> Outcome) {
    exists j: nat, k: nat :: j < k && StoredAt(tried, writes, j) && StoredAt(tried, writes, k) && tried[j] == tried[k]
  }

  lemma {:induction false} RepeatsAreTwice(tried: seq<string>, writes: nat -> Outcome)
    ensures NoRepeats(StoredAmong(tried, writes)) <==> !Twice(tried, writes)
  {
    if tried != [] {
      hide StoredAmong, NoRepeats;
      var front, n := tried[..|tried| - 1], |tried| - 1;
      RepeatsAreTwice(front, writes);
      StoredMeans(front, writes, tried[n]);
      TwiceStep(tried, writes);
      assert front + [tried[n]] == tried;
      AmongStep(front, tried[n], writes);
      SnocRepeats(StoredAmong(front, writes), tried[n]);
    }
  }

  lemma SnocRepeats(s: seq<string>, x: string)
    ensures NoRepeats(s + [x]) <==> NoRepeats(s) && x !in s
  {
    if NoRepeats(s + [x]) {
      forall i, j | 0 <= i < j < |s| ensures s[i] != s[j] {
        assert (s + [x])[i] == s[i] && (s + [x])[j] == s[j];
      }
    }
    if i :| 0 <= i < |s| && s[i] == x {
      assert (s + [x])[i] == (s + [x])[|s|];
    }
  }

  lemma TwiceStep(tried: seq<string>, writes: nat -> Outcome)
    requires tried != []
    ensures var n := |tried| - 1;
            Twice(tried, writes) <==>
            Twice(tried[..n], writes)
            || (!writes(n).Lost? && exists k: nat :: StoredAt(tried[..n], writes, k) && tried[..n][k] == tried[n])
  {
    var front, n := tried[..|tried| - 1], |tried| - 1;
    if j: nat, k: nat :| j < k && StoredAt(front, writes, j) && StoredAt(front, writes, k) && front[j] == front[k] {
      assert StoredAt(tried, writes, j) && StoredAt(tried, writes, k);
    }
    if k: nat :| StoredAt(front, writes, k) && front[k] == tried[n] && !writes(n).Lost? {
      assert StoredAt(tried, writes, k) && StoredAt(tried, writes, n);
    }
    if j: nat, k: nat :| j < k && StoredAt(tried, writes, j) && StoredAt(tried, writes, k) && tried[j] == tried[k] {
      assert StoredAt(front, writes, j) && front[j] == tried[j];
      if k < n {
        assert StoredAt(front, writes, k) && front[k] == tried[k];
      }
    }
  }

  /** The mention loop repeats the first recipient only after that write was not acknowledged. */
  lemma TriedRepeats(
    author: string, repliedTo: Option<string>, postAuthor: string, mentioned: seq<string>, writes: nat -> Outcome,
    j: nat, k: nat)
    requires var tried := Tried(author, repliedTo, postAuthor, mentioned, writes);
             j < k < |tried| && tried[j] == tried[k]
    ensures j == 0 && FirstTried(author, repliedTo, postAuthor) != [] && !writes(0).Acknowledged?
  {
    hide MentionTargets, AcknowledgedAmong;
    var first := FirstTried(author, repliedTo, postAuthor);
    FirstOutcome(first, writes);
    var targets := MentionTargets(mentioned, author, AcknowledgedAmong(first, writes));
    assert targets[k - |first|] in targets;
  }

  /** Where x stands in a list. */
  function Place(s: seq<string>, x: string): (i: nat)
    requires x in s
    ensures i < |s| && s[i] == x
  {
    if s[0] == x then 0 else 1 + Place(s[1..], x)
  }

  /** The first write was stored without acknowledgement, its recipient is mentioned too, and
      the mention loop's write for it, whose turn the list of mentions fixes, is not lost. */
  ghost predicate RetriedByMention(
    author: string, repliedTo: Option<string>, postAuthor: string, mentioned: seq<string>, writes: nat -> Outcome)
  {
    var first, targets := FirstRecipient(author, repliedTo, postAuthor), MentionTargets(mentioned, author, []);
    && first.Some? && first.value in mentioned
    && writes(0).StoredUnacknowledged?
    && !writes(1 + Place(targets, first.value)).Lost?
  }

  /** Who is tried when the first write goes unacknowledged. */
  lemma TriedUnacknowledged(
    author: string, repliedTo: Option<string>, postAuthor: string, mentioned: seq<string>, writes: nat -> Outcome)
    requires FirstRecipient(author, repliedTo, postAuthor).Some? && !writes(0).Acknowledged?
    ensures Tried(author, repliedTo, postAuthor, mentioned, writes)
            == [FirstRecipient(author, repliedTo, postAuthor).value] + MentionTargets(mentioned, author, [])
  {
    FirstOutcome(FirstTried(author, repliedTo, postAuthor), writes);
    hide MentionTargets, AcknowledgedAmong;
  }

  /** At most one stored notification per entity, except exactly when a stored first write
      went unacknowledged and the mention loop stored another for that entity. */
  lemma AtMostOneEach(
    author: string, repliedTo: Option<string>, postAuthor: string, mentioned: seq<string>, writes: nat -> Outcome)
    ensures NoRepeats(StoredAmong(Tried(author, repliedTo, postAuthor, mentioned, writes), writes))
            <==> !RetriedByMention(author, repliedTo, postAuthor, mentioned, writes)
  {
    hide Tried, NoRepeats, StoredAmong, MentionTargets, FirstRecipient;
    var tried := Tried(author, repliedTo, postAuthor, mentioned, writes);
    RepeatsAreTwice(tried, writes);
    if Twice(tried, writes) {
      var j: nat, k: nat :|
        j < k && StoredAt(tried, writes, j) && StoredAt(tried, writes, k) && tried[j] == tried[k];
      TriedRepeats(author, repliedTo, postAuthor, mentioned, writes, j, k);
      TriedUnacknowledged(author, repliedTo, postAuthor, mentioned, writes);
      var targets := MentionTargets(mentioned, author, []);
      assert targets[k - 1] == tried[0] && targets[k - 1] in targets;
      OnePlace(targets, k - 1);
    }
    if RetriedByMention(author, repliedTo, postAuthor, mentioned, writes) {
      TriedUnacknowledged(author, repliedTo, postAuthor, mentioned, writes);
      var k := 1 + Place(MentionTargets(mentioned, author, []), FirstRecipient(author, repliedTo, postAuthor).value);
      assert StoredAt(tried, writes, 0) && StoredAt(tried, writes, k) && tried[k] == tried[0];
    }
  }

  lemma OnePlace(s: seq<string>, k: nat)
    requires NoRepeats(s) && k < |s|
    ensures Place(s, s[k]) == k
  {
  }

  /** Whatever becomes of the writes, nobody is stored twice: this holds for exactly those
      comments whose first recipient, if there is one, is not mentioned as well. */
  lemma NeverTwiceIffNotMentioned(
    author: string, repliedTo: Option<string>, postAuthor: string, mentioned: seq<string>)
    ensures (forall writes: nat -> Outcome ::
              NoRepeats(StoredAmong(Tried(author, repliedTo, postAuthor, mentioned, writes), writes)))
            <==>
            FirstRecipient(author, repliedTo, postAuthor).None?
            || FirstRecipient(author, repliedTo, postAuthor).value !in mentioned
  {
    hide NoRepeats, StoredAmong, Tried, FirstRecipient, MentionTargets;
    forall writes: nat -> Outcome
      ensures NoRepeats(StoredAmong(Tried(author, repliedTo, postAuthor, mentioned, writes), writes))
              <==> !RetriedByMention(author, repliedTo, postAuthor, mentioned, writes)
    {
      AtMostOneEach(author, repliedTo, postAuthor, mentioned, writes);
    }
    var unheard: nat -> Outcome := k => StoredUnacknowledged;
    assert NoRepeats(StoredAmong(Tried(author, repliedTo, postAuthor, mentioned, unheard), unheard))
           <==> !RetriedByMention(author, repliedTo, postAuthor, mentioned, unheard);
  }

  /** A write that is lost when it fails is never repeated. */
  lemma NeverTwiceWhenFailuresAreLost(
    author: string, repliedTo: Option<string>, postAuthor: string, mentioned: seq<string>, writes: nat -> Outcome)
    requires forall k :: !writes(k).StoredUnacknowledged?
    ensures NoRepeats(StoredAmong(Tried(author, repliedTo, postAuthor, mentioned, writes), writes))
  {
    hide NoRepeats, StoredAmong, Tried, FirstRecipient, MentionTargets;
    AtMostOneEach(author, repliedTo, postAuthor, mentioned, writes);
  }

  /** Somebody comments on another's post and mentions its owner. The post notification is
      stored, the store reports a failure, and the owner is notified again. */
  lemma OwnerNotifiedTwice(author: string, owner: string, writes: nat -> Outcome)
    requires author != owner && writes(0) == StoredUnacknowledged && writes(1) == Acknowledged
    ensures StoredAmong(Tried(author, None, owner, [owner], writes), writes) == [owner, owner]
  {
    hide Tried, MentionTargets, StoredAmong, AcknowledgedAmong, NoRepeats;
    var targets := MentionTargets([owner], author, []);
    assert targets == [owner] by {
      OneTarget(author, owner);
    }
    assert Tried(author, None, owner, [owner], writes) == [owner] + [owner] by {
      TriedUnacknowledged(author, None, owner, [owner], writes);
    }
    assert StoredAmong([owner], writes) == [owner] by {
      FirstOutcome([owner], writes);
    }
    AmongStep([owner], owner, writes);
  }

  lemma OneTarget(author: string, x: string)
    requires x != author
    ensures MentionTargets([x], author, []) == [x]
  {
    NoTargets(author, []);
    hide NoRepeats, Dedup, Mentionable.Without, Skipped;
    var skipped := Skipped(author, []);
    assert [] + [x] == [x];
    Mentionable.WithoutSnoc([], skipped, x);
    DedupSnoc([], x);
    NothingKept(skipped);
  }

  lemma NothingKept(skipped: set<string>)
    ensures Mentionable.Without([], skipped) == [] && Dedup<string>([]) == []
  {
  }

  /** The author is never notified, and nobody who is neither the first recipient nor
      mentioned. */
  lemma OnlyThoseConcerned(
    author: string, repliedTo: Option<string>, postAuthor: string, mentioned: seq<string>, writes: nat -> Outcome,
    x: string)
    requires x in StoredAmong(Tried(author, repliedTo, postAuthor, mentioned, writes), writes)
    ensures x != author && (x in FirstTried(author, repliedTo, postAuthor) || x in mentioned)
  {
    hide StoredAmong, AcknowledgedAmong, MentionTargets;
    var tried := Tried(author, repliedTo, postAuthor, mentioned, writes);
    StoredMeans(tried, writes, x);
    var k: nat :| StoredAt(tried, writes, k) && tried[k] == x;
    assert x in tried;
  }

  /** The list handed back never repeats an entity and names only stored notifications; it
      names all of them when no write went unacknowledged. */
  lemma {:induction false} AcknowledgedAreStored(tried: seq<string>, writes: nat -> Outcome)
    ensures forall x :: x in AcknowledgedAmong(tried, writes) ==> x in StoredAmong(tried, writes)
    ensures (forall k: nat :: k < |tried| ==> !writes(k).StoredUnacknowledged?) ==>
              AcknowledgedAmong(tried, writes) == StoredAmong(tried, writes)
  {
    if tried != [] {
      AcknowledgedAreStored(tried[..|tried| - 1], writes);
    }
  }

  lemma {:induction false} NotAcknowledged(tried: seq<string>, writes: nat -> Outcome, x: string)
    requires forall k: nat :: k < |tried| && tried[k] == x ==> !writes(k).Acknowledged?
    ensures x !in AcknowledgedAmong(tried, writes)
  {
    if tried != [] {
      var front, n := tried[..|tried| - 1], |tried| - 1;
      forall k: nat | k < |front| && front[k] == x ensures !writes(k).Acknowledged? {
        assert tried[k] == x;
      }
      NotAcknowledged(front, writes, x);
      assert tried[n] == x ==> !writes(n).Acknowledged?;
    }
  }

  lemma {:induction false} DistinctAcknowledged(tried: seq<string>, writes: nat -> Outcome)
    requires forall j, k :: 0 <= j < k < |tried| && tried[j] == tried[k] ==> !writes(j).Acknowledged?
    ensures NoRepeats(AcknowledgedAmong(tried, writes))
  {
    if tried != [] {
      hide AcknowledgedAmong, NoRepeats;
      var front, n := tried[..|tried| - 1], |tried| - 1;
      forall j, k | 0 <= j < k < |front| && front[j] == front[k] ensures !writes(j).Acknowledged? {
        assert tried[j] == front[j] && tried[k] == front[k];
      }
      DistinctAcknowledged(front, writes);
      assert front + [tried[n]] == tried;
      AmongStep(front, tried[n], writes);
      SnocRepeats(AcknowledgedAmong(front, writes), tried[n]);
      forall k: nat | k < |front| && front[k] == tried[n] ensures !writes(k).Acknowledged? {
        assert tried[k] == tried[n];
      }
      NotAcknowledged(front, writes, tried[n]);
    } else {
      assert AcknowledgedAmong(tried, writes) == [];
    }
  }

  lemma NotifiedWithoutRepeats(
    author: string, repliedTo: Option<string>, postAuthor: string, mentioned: seq<string>, writes: nat -> Outcome)
    ensures NoRepeats(AcknowledgedAmong(Tried(author, repliedTo, postAuthor, mentioned, writes), writes))
  {
    hide Tried, FirstTried, AcknowledgedAmong, NoRepeats;
    var tried := Tried(author, repliedTo, postAuthor, mentioned, writes);
    forall j, k | 0 <= j < k < |tried| && tried[j] == tried[k] ensures !writes(j).Acknowledged? {
      TriedRepeats(author, repliedTo, postAuthor, mentioned, writes, j, k);
    }
    DistinctAcknowledged(tried, writes);
  }
}
