/** The type of a conversation: how a send resolves it, and what any interleaving of sends
    (resolve, insert the message, upsert the preview) does to it. */
module ConversationTypes {
  import opened Collections

  /** The stored preview. `kind` is "" when the document has no usable type. */
  datatype Doc = Doc(kind: string, lastMessage: string, participants: seq<string>)

  type Docs = map<string, Doc>

  /** What the realm lookup came to. */
  datatype RealmRead = LookupFailed | NoRealm | Realm(kind: string)

  function Normalize(kind: string): string {
    if kind == "" then "single"
    else if ToLower(kind) == "server" then "channel"
    else ToLower(kind)
  }

  lemma {:induction false} LowerIsLower(s: string)
    ensures ToLower(ToLower(s)) == ToLower(s)
  {
    if s != "" {
      LowerIsLower(s[1..]);
      assert ToLower(s)[1..] == ToLower(s[1..]);
      assert Lower(Lower(s[0])) == Lower(s[0]);
    }
  }

  /** Normalising again changes nothing, and never leaves a blank or "server". */
  lemma NormalizeTwice(kind: string)
    ensures Normalize(Normalize(kind)) == Normalize(kind)
    ensures Normalize(kind) != "" && Normalize(kind) != "server"
  {
    LowerIsLower(kind);
    LowerWords();
    hide ToLower;
  }

  lemma LowerWords()
    ensures ToLower("channel") == "channel" && ToLower("single") == "single"
    ensures "channel" != "server" && "single" != "server"
  {
    hide ToLower;
    SameLetters("channel");
    SameLetters("single");
    assert |"channel"| != |"server"|;
    assert "single"[1] != "server"[1];
  }

  predicate AlikeAs(a: string, b: string, first: string, second: string) {
    (ToLower(a) == first || ToLower(a) == second) && (ToLower(b) == first || ToLower(b) == second)
  }

  /** Two types are stored alike exactly when they are the same but for case, or one is
      "server" where the other is "channel", or one is blank where the other is "single". */
  lemma StoredAlike(a: string, b: string)
    ensures Normalize(a) == Normalize(b) <==>
            ToLower(a) == ToLower(b) || AlikeAs(a, b, "server", "channel") || AlikeAs(a, b, "", "single")
  {
    var server, channel, single := "server", "channel", "single";
    LowerWords();
    assert channel != single by {
      assert channel[0] != single[0];
    }
    NormalizeAs(a, server, channel, single);
    NormalizeAs(b, server, channel, single);
    hide ToLower, Normalize;
    AlikeIff(a, b, server, channel, single);
  }

  lemma NormalizeAs(kind: string, server: string, channel: string, single: string)
    requires server == "server" && channel == "channel" && single == "single"
    ensures Normalize(kind) == if ToLower(kind) == "" then single
                               else if ToLower(kind) == server then channel else ToLower(kind)
  {
  }

  lemma AlikeIff(a: string, b: string, server: string, channel: string, single: string)
    requires server != channel && server != single && channel != single && server != "" && channel != ""
    ensures (if ToLower(a) == "" then single else if ToLower(a) == server then channel else ToLower(a))
            == (if ToLower(b) == "" then single else if ToLower(b) == server then channel else ToLower(b))
            <==> ToLower(a) == ToLower(b) || AlikeAs(a, b, server, channel) || AlikeAs(a, b, "", single)
  {
    hide ToLower;
  }

  lemma {:induction false} SameLetters(s: string)
    requires forall i :: 0 <= i < |s| ==> !('A' <= s[i] <= 'Z')
    ensures ToLower(s) == s
  {
    if s != "" {
      SameLetters(s[1..]);
    }
  }

  /** A type is stored in lower case, letter by letter, except that a blank one is stored as
      "single" and "server", in any case, as "channel". */
  lemma NormalizeMeans(kind: string)
    ensures var r := Normalize(kind);
            if kind == "" then r == "single"
            else if |kind| == 6 && kind[0] in ['s', 'S'] && kind[1] in ['e', 'E'] && kind[2] in ['r', 'R']
                    && kind[3] in ['v', 'V'] && kind[4] in ['e', 'E'] && kind[5] in ['r', 'R'] then r == "channel"
            else
              && |r| == |kind|
              && forall i :: 0 <= i < |kind| ==>
                   r[i] as int == kind[i] as int + if 'A' <= kind[i] <= 'Z' then 32 else 0
  {
    var server, lower := "server", ToLower(kind);
    assert server[0] == 's' && server[1] == 'e' && server[2] == 'r';
    assert server[3] == 'v' && server[4] == 'e' && server[5] == 'r';
    forall i | 0 <= i < |kind| ensures lower[i] as int == kind[i] as int + if 'A' <= kind[i] <= 'Z' then 32 else 0 {
      assert lower[i] == Lower(kind[i]);
    }
    if |kind| == 6 {
      forall i | 0 <= i < 6 ensures lower[i] == server[i] <==> kind[i] in [server[i], Raised(server[i])] {
        CaseOf(kind[i], server[i]);
      }
      hide ToLower;
      assert lower == server <==> forall i :: 0 <= i < 6 ==> lower[i] == server[i];
    }
  }

  ghost function Raised(c: char): char
    requires 'a' <= c <= 'z'
  {
    (c as int - 32) as char
  }

  lemma CaseOf(c: char, lower: char)
    requires 'a' <= lower <= 'z'
    ensures Lower(c) == lower <==> c in [lower, Raised(lower)]
  {
    assert 'a' as int == 97 && 'z' as int == 122 && 'A' as int == 65 && 'Z' as int == 90;
  }

  predicate SeesStored(docs: Docs, conversationID: string, readFails: bool) {
    !readFails && conversationID in docs && docs[conversationID].kind != ""
  }

  predicate SeesRealm(realm: RealmRead) {
    realm.Realm? && realm.kind != ""
  }

  /** The stored type, else the realm's, else what the caller claimed. */
  function Resolve(docs: Docs, conversationID: string, claimed: string, readFails: bool, realm: RealmRead): string {
    if SeesStored(docs, conversationID, readFails) then docs[conversationID].kind
    else if SeesRealm(realm) then Normalize(realm.kind)
    else Normalize(claimed)
  }

  /** What the caller claims decides exactly when neither source has a type. */
  lemma ClaimDecidesIffNothingKnown(docs: Docs, conversationID: string, readFails: bool, realm: RealmRead)
    ensures (exists a, b ::
              Resolve(docs, conversationID, a, readFails, realm) != Resolve(docs, conversationID, b, readFails, realm))
            <==> !SeesStored(docs, conversationID, readFails) && !SeesRealm(realm)
  {
    if !SeesStored(docs, conversationID, readFails) && !SeesRealm(realm) {
      SameLetters("group");
      assert Resolve(docs, conversationID, "", readFails, realm) == "single";
      assert Resolve(docs, conversationID, "group", readFails, realm) == "group";
      assert "single" != "group" by {
        assert "single"[0] != "group"[0];
      }
    }
  }

  /** The upsert of a preview: the type is written only when the document is new, the
      participants only when some were resolved. */
  function Saved(docs: Docs, conversationID: string, kind: string, messageID: string, participants: seq<string>): Docs {
    if conversationID in docs then
      var d := docs[conversationID];
      docs[conversationID :=
             Doc(d.kind, messageID, if participants != [] then participants else d.participants)]
    else docs[conversationID := Doc(kind, messageID, participants)]
  }

  /** The conversations collection, as a send reads and writes it. */
  class Conversations {
    var docs: Docs

    constructor (initial: Docs)
      ensures docs == initial
    {
      docs := initial;
    }

    method ResolveConversationType(conversationID: string, claimed: string, readFails: bool, realm: RealmRead)
      returns (kind: string)
      ensures kind == Resolve(docs, conversationID, claimed, readFails, realm)
      ensures !readFails && conversationID in docs && docs[conversationID].kind != "" ==>
                kind == docs[conversationID].kind
      ensures readFails || conversationID !in docs || docs[conversationID].kind == "" ==>
                kind == Normalize(if realm.Realm? && realm.kind != "" then realm.kind else claimed)
    {
      if !readFails && conversationID in docs {
        if docs[conversationID].kind != "" {
          return docs[conversationID].kind;
        }
      }
      match realm {
        case Realm(stored) =>
          if stored != "" {
            return Normalize(stored);
          }
        case _ =>
      }
      return Normalize(claimed);
    }

    method SaveConversation(
      conversationID: string, kind: string, participants: seq<string>, messageID: string, fails: bool, applied: bool)
      returns (ok: bool)
      modifies this
      ensures ok == !fails
      ensures docs == if fails && !applied then old(docs)
                      else Saved(old(docs), conversationID, kind, messageID, participants)
      ensures ok || applied ==>
                var known := conversationID in old(docs);
                && conversationID in docs && docs == old(docs)[conversationID := docs[conversationID]]
                && docs[conversationID].kind == (if known then old(docs)[conversationID].kind else kind)
                && docs[conversationID].lastMessage == messageID
                && docs[conversationID].participants
                   == if known && participants == [] then old(docs)[conversationID].participants else participants
    {
      if !fails || applied {
        if conversationID in docs {
          var d := docs[conversationID].(lastMessage := messageID);
          if |participants| > 0 {
            d := d.(participants := participants);
          }
          docs := docs[conversationID := d];
        } else {
          docs := docs[conversationID := Doc(kind, messageID, participants)];
        }
      }
      return !fails;
    }
  }

  // --------------------------------------------------------------------- the protocol

  datatype Phase = Resolving | Resolved(kind: string) | Posted(kind: string) | Finished(kind: string) | Failed

  datatype Send = Send(conversationID: string, claimed: string, phase: Phase)

  /** A stored message, and the send that wrote it. */
  datatype Stored = Stored(conversationID: string, kind: string, origin: nat)

  datatype State = State(docs: Docs, sends: seq<Send>, messages: seq<Stored>)

  datatype Step =
    | Begin(conversationID: string, claimed: string)
    | ResolveType(i: nat, readFails: bool, realm: RealmRead)
    | InsertMessage(i: nat, fails: bool, applied: bool)
    | SavePreview(i: nat, messageID: string, participants: seq<string>, fails: bool, applied: bool)
    | CreatedElsewhere(conversationID: string, doc: Doc)

  predicate Enabled(s: State, step: Step) {
    match step
    case Begin(_, _) => true
    case ResolveType(i, _, _) => i < |s.sends| && s.sends[i].phase.Resolving?
    case InsertMessage(i, _, _) => i < |s.sends| && s.sends[i].phase.Resolved?
    case SavePreview(i, _, _, _, _) => i < |s.sends| && s.sends[i].phase.Posted?
    case CreatedElsewhere(conversationID, _) => conversationID !in s.docs
  }

  function Advance(s: State, i: nat, phase: Phase): State
    requires i < |s.sends|
  {
    s.(sends := s.sends[i := s.sends[i].(phase := phase)])
  }

  function Apply(s: State, step: Step): State
    requires Enabled(s, step)
  {
    match step
    case Begin(conversationID, claimed) => s.(sends := s.sends + [Send(conversationID, claimed, Resolving)])
    case ResolveType(i, readFails, realm) =>
      var x := s.sends[i];
      Advance(s, i, Resolved(Resolve(s.docs, x.conversationID, x.claimed, readFails, realm)))
    case InsertMessage(i, fails, applied) =>
      var x := s.sends[i];
      var phase := if fails then Failed else Posted(x.phase.kind);
      Advance(s, i, phase).(
        messages := s.messages + if fails && !applied then [] else [Stored(x.conversationID, x.phase.kind, i)])
    case SavePreview(i, messageID, participants, fails, applied) =>
      var x := s.sends[i];
      Advance(s, i, Finished(x.phase.kind)).(
        docs := if fails && !applied then s.docs
                else Saved(s.docs, x.conversationID, x.phase.kind, messageID, participants))
    case CreatedElsewhere(conversationID, doc) => s.(docs := s.docs[conversationID := doc])
  }

  function After(docs: Docs, steps: seq<Step>): Option<State> {
    if steps == [] then Some(State(docs, [], []))
    else
      match After(docs, steps[..|steps| - 1])
      case None => None
      case Some(s) =>
        if Enabled(s, steps[|steps| - 1]) then Some(Apply(s, steps[|steps| - 1])) else None
  }

  lemma {:induction false} PrefixRuns(docs: Docs, steps: seq<Step>, n: nat)
    requires n <= |steps| && After(docs, steps).Some?
    ensures After(docs, steps[..n]).Some?
    decreases |steps|
  {
    hide Enabled, Apply;
    if n < |steps| {
      PrefixRuns(docs, steps[..|steps| - 1], n);
      assert steps[..|steps| - 1][..n] == steps[..n];
    } else {
      assert steps[..n] == steps;
    }
  }

  lemma StepOfRun(docs: Docs, steps: seq<Step>, n: nat)
    requires n < |steps| && After(docs, steps).Some?
    ensures After(docs, steps[..n]).Some? && After(docs, steps[..n + 1]).Some?
    ensures Enabled(After(docs, steps[..n]).value, steps[n])
    ensures After(docs, steps[..n + 1]).value == Apply(After(docs, steps[..n]).value, steps[n])
  {
    PrefixRuns(docs, steps, n);
    PrefixRuns(docs, steps, n + 1);
    hide Enabled, Apply;
    assert steps[..n + 1][..n] == steps[..n];
  }

  // ------------------------------------------------------------------ types do not change

  /** No conversation is removed, and none changes its type. */
  ghost predicate KindsStay(a: Docs, b: Docs) {
    forall id :: id in a ==> id in b && b[id].kind == a[id].kind
  }

  lemma StepKeepsKinds(s: State, step: Step)
    requires Enabled(s, step)
    ensures KindsStay(s.docs, Apply(s, step).docs)
  {
    hide Resolve;
  }

  lemma KindsStayTransitive(a: Docs, b: Docs, c: Docs)
    requires KindsStay(a, b) && KindsStay(b, c)
    ensures KindsStay(a, c)
  {
  }

  /** Over every interleaving of sends, failed writes included, a conversation's type never
      changes once its document exists. */
  lemma {:induction false} TypesNeverChange(docs: Docs, steps: seq<Step>, m: nat, n: nat)
    requires After(docs, steps).Some? && m <= n <= |steps|
    ensures After(docs, steps[..m]).Some? && After(docs, steps[..n]).Some?
    ensures KindsStay(After(docs, steps[..m]).value.docs, After(docs, steps[..n]).value.docs)
    decreases n
  {
    hide Enabled, Apply, After;
    PrefixRuns(docs, steps, m);
    if m < n {
      TypesNeverChange(docs, steps, m, n - 1);
      StepOfRun(docs, steps, n - 1);
      hide KindsStay;
      StepKeepsKinds(After(docs, steps[..n - 1]).value, steps[n - 1]);
      KindsStayTransitive(After(docs, steps[..m]).value.docs, After(docs, steps[..n - 1]).value.docs,
                          After(docs, steps[..n]).value.docs);
    }
  }

  function KindOf(phase: Phase): Option<string> {
    match phase
    case Resolving => None
    case Resolved(kind) => Some(kind)
    case Posted(kind) => Some(kind)
    case Finished(kind) => Some(kind)
    case Failed => None
  }

  /** Send i has resolved to `kind` or failed, and every message it stored has that type. */
  ghost predicate Settled(s: State, i: nat, kind: string) {
    && i < |s.sends| && !s.sends[i].phase.Resolving?
    && (s.sends[i].phase.Failed? || KindOf(s.sends[i].phase) == Some(kind))
    && forall k :: 0 <= k < |s.messages| && s.messages[k].origin == i ==> s.messages[k].kind == kind
  }

  lemma StepKeepsSettled(s: State, step: Step, i: nat, kind: string)
    requires Enabled(s, step) && Settled(s, i, kind)
    ensures Settled(Apply(s, step), i, kind)
  {
    hide Resolve, Saved;
  }

  lemma {:induction false} SettledStays(docs: Docs, steps: seq<Step>, m: nat, n: nat, i: nat, kind: string)
    requires After(docs, steps).Some? && m <= n <= |steps|
    requires After(docs, steps[..m]).Some? && Settled(After(docs, steps[..m]).value, i, kind)
    ensures After(docs, steps[..n]).Some? && Settled(After(docs, steps[..n]).value, i, kind)
    decreases n
  {
    hide Enabled, Apply, After, Settled;
    if m < n {
      SettledStays(docs, steps, m, n - 1, i, kind);
      StepOfRun(docs, steps, n - 1);
      StepKeepsSettled(After(docs, steps[..n - 1]).value, steps[n - 1], i, kind);
    }
  }

  /** A send that has not resolved has stored nothing, and no message names a send to come. */
  ghost predicate NothingEarly(s: State) {
    forall k :: 0 <= k < |s.messages| ==>
      s.messages[k].origin < |s.sends| && !s.sends[s.messages[k].origin].phase.Resolving?
      && !s.sends[s.messages[k].origin].phase.Resolved?
  }

  lemma {:induction false} RunsStoreNothingEarly(docs: Docs, steps: seq<Step>)
    requires After(docs, steps).Some?
    ensures NothingEarly(After(docs, steps).value)
  {
    if steps != [] {
      hide Resolve, Saved;
      RunsStoreNothingEarly(docs, steps[..|steps| - 1]);
    }
  }

  /** A send that resolves when the conversation already has a type, and reads it, sends
      messages of exactly the type the conversation has ever after. */
  lemma MessagesTakeTheStoredType(docs: Docs, steps: seq<Step>, r: nat, i: nat, realm: RealmRead, n: nat)
    requires After(docs, steps).Some? && r < n <= |steps| && steps[r] == ResolveType(i, false, realm)
    requires After(docs, steps[..r]).Some? && i < |After(docs, steps[..r]).value.sends|
    requires var s := After(docs, steps[..r]).value; SeesStored(s.docs, s.sends[i].conversationID, false)
    ensures After(docs, steps[..n]).Some?
    ensures var s := After(docs, steps[..n]).value;
            && i < |s.sends|
            && s.sends[i].conversationID in s.docs
            && Settled(s, i, s.docs[s.sends[i].conversationID].kind)
  {
    var s := After(docs, steps[..r]).value;
    var id := s.sends[i].conversationID;
    StepOfRun(docs, steps, r);
    RunsStoreNothingEarly(docs, steps[..r]);
    assert Settled(After(docs, steps[..r + 1]).value, i, s.docs[id].kind);
    SettledStays(docs, steps, r + 1, n, i, s.docs[id].kind);
    TypesNeverChange(docs, steps, r, n);
    SendsKeepTheirConversation(docs, steps, r, n, i);
  }

  lemma {:induction false} SendsKeepTheirConversation(docs: Docs, steps: seq<Step>, m: nat, n: nat, i: nat)
    requires After(docs, steps).Some? && m <= n <= |steps|
    requires After(docs, steps[..m]).Some? && i < |After(docs, steps[..m]).value.sends|
    ensures After(docs, steps[..n]).Some? && i < |After(docs, steps[..n]).value.sends|
    ensures After(docs, steps[..n]).value.sends[i].conversationID
            == After(docs, steps[..m]).value.sends[i].conversationID
    decreases n
  {
    hide After, Resolve, Saved;
    if m < n {
      SendsKeepTheirConversation(docs, steps, m, n - 1, i);
      StepOfRun(docs, steps, n - 1);
    }
  }

  // ------------------------------------------------------------------- types are normal

  predicate Normal(kind: string) {
    kind != "" && Normalize(kind) == kind
  }

  ghost predicate AllNormal(s: State) {
    && (forall id :: id in s.docs && s.docs[id].kind != "" ==> Normal(s.docs[id].kind))
    && (forall i :: 0 <= i < |s.sends| ==> KindOf(s.sends[i].phase).None? || Normal(KindOf(s.sends[i].phase).value))
    && (forall k :: 0 <= k < |s.messages| ==> Normal(s.messages[k].kind))
  }

  lemma ResolveIsNormal(docs: Docs, conversationID: string, claimed: string, readFails: bool, realm: RealmRead)
    requires conversationID in docs && docs[conversationID].kind != "" ==> Normal(docs[conversationID].kind)
    ensures Normal(Resolve(docs, conversationID, claimed, readFails, realm))
  {
    hide Normalize;
    NormalizeTwice(claimed);
    if realm.Realm? {
      NormalizeTwice(realm.kind);
    }
  }

  lemma StepKeepsNormal(s: State, step: Step)
    requires Enabled(s, step) && AllNormal(s)
    requires step.CreatedElsewhere? && step.doc.kind != "" ==> Normal(step.doc.kind)
    ensures AllNormal(Apply(s, step))
  {
    hide Normal, Resolve;
    match step
    case ResolveType(i, readFails, realm) =>
      ResolveIsNormal(s.docs, s.sends[i].conversationID, s.sends[i].claimed, readFails, realm);
    case _ =>
  }

  /** Whatever callers claim, every type stored or sent is a normal one, given that those
      already stored and those other services store are. */
  lemma {:induction false} RunsStayNormal(docs: Docs, steps: seq<Step>)
    requires After(docs, steps).Some?
    requires forall id :: id in docs && docs[id].kind != "" ==> Normal(docs[id].kind)
    requires forall k :: 0 <= k < |steps| && steps[k].CreatedElsewhere? && steps[k].doc.kind != "" ==>
               Normal(steps[k].doc.kind)
    ensures AllNormal(After(docs, steps).value)
  {
    if steps != [] {
      hide Normal, Enabled, Apply;
      RunsStayNormal(docs, steps[..|steps| - 1]);
      StepKeepsNormal(After(docs, steps[..|steps| - 1]).value, steps[|steps| - 1]);
    }
  }
}
