/** The two hand-written scanners over message text, proved equal to the platform's regular
    expressions under backtracking semantics. */
module TextScan {
  import opened Collections
  import opened Regexes

  // --------------------------------------------------------------- character predicates

  predicate IsMentionRune(c: char) {
    'a' <= c <= 'z' || 'A' <= c <= 'Z' || '0' <= c <= '9' || c == '.' || c == '_' || c == '-'
  }

  predicate IsSpaceByte(c: char) {
    c == ' ' || c == '\t' || c == '\n' || c == '\r' || c == '\U{000C}' || c == '\U{000B}'
  }

  predicate IsMentionTerminator(c: char) {
    IsSpaceByte(c) || c == '.' || c == ',' || c == '!' || c == '?' || c == ';' || c == ':'
  }

  ghost const HANDLE: set<(char, char)> := {('a', 'z'), ('A', 'Z'), ('0', '9'), ('.', '.'), ('_', '_'), ('-', '-')}
  ghost const SPACE: set<(char, char)> := {(' ', ' '), ('\t', '\r')}
  ghost const PUNCTUATION: set<(char, char)> :=
    {('.', '.'), (',', ','), ('!', '!'), ('?', '?'), (';', ';'), (':', ':')}

  ghost function Only(c: char): set<(char, char)> {
    {(c, c)}
  }

  lemma OnlyClass(x: char, c: char)
    ensures Accepts(false, Only(x), c) <==> c == x
  {
    assert (x, x) in Only(x);
  }

  lemma HandleClass(c: char)
    ensures Accepts(false, HANDLE, c) <==> IsMentionRune(c)
  {
    assert ('a', 'z') in HANDLE && ('A', 'Z') in HANDLE && ('0', '9') in HANDLE;
    assert ('.', '.') in HANDLE && ('_', '_') in HANDLE && ('-', '-') in HANDLE;
  }

  lemma SpaceClass(c: char)
    ensures Accepts(false, SPACE, c) <==> IsSpaceByte(c)
  {
    assert (' ', ' ') in SPACE && ('\t', '\r') in SPACE;
    assert '\t' <= c <= '\r' <==> c == '\t' || c == '\n' || c == '\U{000B}' || c == '\U{000C}' || c == '\r' by {
      assert '\t' as int == 9 && '\n' as int == 10 && '\r' as int == 13;
      assert '\U{000B}' as int == 11 && '\U{000C}' as int == 12;
      assert c as int == 9 ==> c == '\t';
      assert c as int == 10 ==> c == '\n';
      assert c as int == 11 ==> c == '\U{000B}';
      assert c as int == 12 ==> c == '\U{000C}';
      assert c as int == 13 ==> c == '\r';
    }
  }

  lemma PunctuationClass(c: char)
    ensures Accepts(false, PUNCTUATION, c) <==> c == '.' || c == ',' || c == '!' || c == '?' || c == ';' || c == ':'
  {
    assert ('.', '.') in PUNCTUATION && (',', ',') in PUNCTUATION && ('!', '!') in PUNCTUATION;
    assert ('?', '?') in PUNCTUATION && (';', ';') in PUNCTUATION && (':', ':') in PUNCTUATION;
  }

  // ------------------------------------------------------------------------- mentions

  const MAX_HANDLE := 30

  /** (?=$|\s|[.,!?;:]) */
  ghost const TERMINATOR: Regex :=
    Ahead(Alt(End, Alt(Class(false, SPACE), Class(false, PUNCTUATION))))

  ghost const HANDLE_GROUP: Regex := Group(Repeat(Class(false, HANDLE), 1, AtMost(MAX_HANDLE)))

  ghost const AT_HANDLE: Regex := Cat(Class(false, Only('@')), Cat(HANDLE_GROUP, TERMINATOR))

  /** (?:^|\s)@([A-Za-z0-9._-]{1,30})(?=$|\s|[.,!?;:]) */
  ghost const MENTION: Regex := Cat(Alt(Start, Class(false, SPACE)), AT_HANDLE)

  /** The longest stop in (start, end] that a terminator or the end of the text follows. */
  ghost function Stop(s: string, start: nat, end: nat): (stop: Option<nat>)
    requires end <= |s|
    ensures stop.Some? ==> start < stop.value <= end
    decreases end
  {
    if end <= start then None
    else if end == |s| || IsMentionTerminator(s[end]) then Some(end)
    else Stop(s, start, end - 1)
  }

  ghost function HandleEnd(s: string, start: nat): (end: nat)
    requires start <= |s|
    ensures start <= end <= |s|
  {
    start + Run(false, HANDLE, s, start, AtMost(MAX_HANDLE))
  }

  /** Where the handle of an `@` at `i` stops, if that `@` opens a mention. */
  ghost function MentionStop(s: string, i: nat): (stop: Option<nat>)
    ensures stop.Some? ==> i + 1 < stop.value <= |s|
  {
    if i < |s| && s[i] == '@' && (i == 0 || IsSpaceByte(s[i - 1]))
    then Stop(s, i + 1, HandleEnd(s, i + 1))
    else None
  }

  /** The handles of all mentions whose `@` is at `i` or later, trying every position. */
  ghost function Handles(s: string, i: nat): seq<string>
    decreases |s| - i
  {
    if i >= |s| then []
    else
      (if MentionStop(s, i).Some? then [s[i + 1..MentionStop(s, i).value]] else []) + Handles(s, i + 1)
  }

  /** Inside a mention, and right after it, no other mention opens: this is why trying
      every position finds nothing that resuming at the match end would not. */
  lemma NoMentionInside(s: string, i: nat, j: nat)
    requires MentionStop(s, i).Some? && i < j <= MentionStop(s, i).value
    ensures MentionStop(s, j) == None
  {
    var stop := MentionStop(s, i).value;
    assert stop <= HandleEnd(s, i + 1);
    if j < stop {
      HandleClass(s[j]);
    } else {
      HandleClass(s[j - 1]);
    }
  }

  lemma {:induction false} SkipBarren(s: string, a: nat, b: nat)
    requires a <= b
    requires forall j :: a <= j < b ==> MentionStop(s, j) == None
    ensures Handles(s, a) == Handles(s, b)
    decreases b - a
  {
    if a < b {
      SkipBarren(s, a + 1, b);
    }
  }

  // The regular expression's side.

  lemma TerminatorTries(s: string, at: At)
    requires at.pos <= |s|
    ensures Tries(TERMINATOR, s, at) ==
            if at.pos == |s| || IsMentionTerminator(s[at.pos]) then [at] else []
  {
    var inner := Alt(Class(false, SPACE), Class(false, PUNCTUATION));
    if at.pos < |s| {
      SpaceClass(s[at.pos]);
      PunctuationClass(s[at.pos]);
    }
    ClassTries(false, SPACE, s, at);
    ClassTries(false, PUNCTUATION, s, at);
    assert Tries(inner, s, at) == Tries(Class(false, SPACE), s, at) + Tries(Class(false, PUNCTUATION), s, at);
    assert Tries(Alt(End, inner), s, at) == Tries(End, s, at) + Tries(inner, s, at);
  }

  /** The candidate handles of `start`, longest first. */
  ghost function Candidates(s: string, start: nat, hi: nat): (r: seq<At>)
    requires start <= hi <= |s|
    ensures |r| == hi - start
    ensures forall k :: 0 <= k < |r| ==> r[k] == At(hi - k, s[start..hi - k])
  {
    seq(hi - start, k requires 0 <= k < hi - start => At(hi - k, s[start..hi - k]))
  }

  lemma HandleTries(s: string, start: nat)
    requires start <= |s|
    ensures Tries(HANDLE_GROUP, s, At(start, "")) == Candidates(s, start, HandleEnd(s, start))
  {
    hide Tries, Repeats, Run, HANDLE, Capture, Countdown, Candidates;
    var at, hi := At(start, ""), HandleEnd(s, start);
    var body := Repeat(Class(false, HANDLE), 1, AtMost(MAX_HANDLE));
    assert Tries(HANDLE_GROUP, s, at) == Capture(s, start, Tries(body, s, at)) by {
      TriesGroup(body, s, at);
    }
    assert Tries(body, s, at) == Countdown(hi, start + 1, "") by {
      TriesRepeat(Class(false, HANDLE), 1, AtMost(MAX_HANDLE), s, at);
      RepeatOfClass(false, HANDLE, 1, AtMost(MAX_HANDLE), s, at);
    }
    CountdownCaptures(s, start, hi);
  }

  lemma CountdownCaptures(s: string, start: nat, hi: nat)
    requires start <= hi <= |s|
    ensures Capture(s, start, Countdown(hi, start + 1, "")) == Candidates(s, start, hi)
  {
    hide Capture, Countdown, Candidates;
    var ends := Countdown(hi, start + 1, "");
    forall i | 0 <= i < hi - start ensures Capture(s, start, ends)[i] == Candidates(s, start, hi)[i] {
      assert ends[i].pos == hi - i;
    }
  }

  lemma {:induction false} BacktrackToStop(s: string, start: nat, hi: nat)
    requires start <= hi <= |s|
    ensures Head(TriesAll(TERMINATOR, s, Candidates(s, start, hi))) ==
            if Stop(s, start, hi).Some?
            then Some(At(Stop(s, start, hi).value, s[start..Stop(s, start, hi).value])) else None
    decreases hi
  {
    hide Tries, TriesAll, TERMINATOR, IsMentionTerminator, Candidates;
    var candidates := Candidates(s, start, hi);
    if hi == start {
      assert candidates == [];
      NothingToTry(TERMINATOR, s);
    } else {
      TerminatorTries(s, candidates[0]);
      HeadOfAll(TERMINATOR, s, candidates);
      assert candidates[1..] == Candidates(s, start, hi - 1);
      BacktrackToStop(s, start, hi - 1);
    }
  }

  lemma GroupThenTerminator(s: string, start: nat)
    requires start <= |s|
    ensures Head(Tries(Cat(HANDLE_GROUP, TERMINATOR), s, At(start, ""))) ==
            if Stop(s, start, HandleEnd(s, start)).Some?
            then Some(At(Stop(s, start, HandleEnd(s, start)).value,
                         s[start..Stop(s, start, HandleEnd(s, start)).value]))
            else None
  {
    hide Tries, TriesAll, HANDLE_GROUP, TERMINATOR, Stop, HandleEnd, Candidates;
    HandleTries(s, start);
    TriesCat(HANDLE_GROUP, TERMINATOR, s, At(start, ""));
    BacktrackToStop(s, start, HandleEnd(s, start));
  }

  lemma AtSignTries(s: string, p: nat)
    ensures Tries(AT_HANDLE, s, At(p, "")) ==
            if p < |s| && s[p] == '@' then Tries(Cat(HANDLE_GROUP, TERMINATOR), s, At(p + 1, "")) else []
  {
    var tail := Cat(HANDLE_GROUP, TERMINATOR);
    hide Tries, TriesAll, Accepts, Only, HANDLE_GROUP, TERMINATOR;
    ClassTries(false, Only('@'), s, At(p, ""));
    if p < |s| && s[p] == '@' {
      OnlyClass('@', s[p]);
      TriesCatSingle(Class(false, Only('@')), tail, s, At(p, ""), At(p + 1, ""));
    } else {
      if p < |s| {
        OnlyClass('@', s[p]);
      }
      TriesCatNone(Class(false, Only('@')), tail, s, At(p, ""));
    }
  }

  lemma OpeningTries(s: string, m: nat)
    requires m <= |s|
    ensures Tries(Alt(Start, Class(false, SPACE)), s, At(m, "")) ==
            (if m == 0 then [At(m, "")] else []) +
            (if m < |s| && IsSpaceByte(s[m]) then [At(m + 1, "")] else [])
  {
    ClassTries(false, SPACE, s, At(m, ""));
    if m < |s| {
      SpaceClass(s[m]);
    }
  }

  /** The `@` a match attempt at `m` answers: at `m` itself only at the start of the text,
      otherwise the one right behind the whitespace at `m`. */
  ghost function Answers(s: string, m: nat): nat {
    if m == 0 && MentionStop(s, 0).Some? then 0 else m + 1
  }

  ghost function MentionMatch(s: string, i: nat): Option<At> {
    if MentionStop(s, i).Some?
    then Some(At(MentionStop(s, i).value, s[i + 1..MentionStop(s, i).value])) else None
  }

  lemma AtHandleMatches(s: string, p: nat)
    requires p <= |s| && (p == 0 || IsSpaceByte(s[p - 1]))
    ensures Head(Tries(AT_HANDLE, s, At(p, ""))) == MentionMatch(s, p)
  {
    hide Tries, Stop, HandleEnd, IsSpaceByte, AT_HANDLE;
    AtSignTries(s, p);
    if p < |s| && s[p] == '@' {
      GroupThenTerminator(s, p + 1);
    }
  }

  lemma ExecMention(s: string, m: nat)
    requires m <= |s|
    ensures Exec(MENTION, s, m) == MentionMatch(s, Answers(s, m))
  {
    hide Tries, IsSpaceByte, AT_HANDLE, TriesAll;
    var opening := Alt(Start, Class(false, SPACE));
    var starts := Tries(opening, s, At(m, ""));
    TriesCat(opening, AT_HANDLE, s, At(m, ""));
    OpeningTries(s, m);
    if m == 0 {
      AtHandleMatches(s, 0);
    }
    if m < |s| && IsSpaceByte(s[m]) {
      AtHandleMatches(s, m + 1);
    }
    hide MENTION, Stop, HandleEnd;
    HeadOfStarts(AT_HANDLE, s, starts);
  }

  /** Two starts at most: the first success among them, in order. */
  lemma HeadOfStarts(r: Regex, s: string, starts: seq<At>)
    requires |starts| <= 2
    ensures Head(TriesAll(r, s, starts)) ==
            if |starts| > 0 && Tries(r, s, starts[0]) != [] then Head(Tries(r, s, starts[0]))
            else if |starts| > 1 then Head(Tries(r, s, starts[1])) else None
  {
    hide Tries;
    hide TriesAll;
    NothingToTry(r, s);
    assert |starts| == 0 ==> starts == [];
    if |starts| > 0 {
      HeadOfAll(r, s, starts);
      if |starts| > 1 {
        HeadOfAll(r, s, starts[1..]);
        assert starts[1..][1..] == [];
      } else {
        assert starts[1..] == [];
      }
    }
  }

  lemma HandlesStep(s: string, i: nat)
    ensures Handles(s, i) ==
            (if MentionStop(s, i).Some? then [s[i + 1..MentionStop(s, i).value]] else []) + Handles(s, i + 1)
  {
  }

  lemma GroupsStep(s: string, from: nat)
    requires from <= |s|
    ensures var i := Answers(s, from);
            GroupsOfAll(MENTION, s, from) ==
            if MentionStop(s, i).Some?
            then [s[i + 1..MentionStop(s, i).value]] + GroupsOfAll(MENTION, s, MentionStop(s, i).value)
            else GroupsOfAll(MENTION, s, from + 1)
  {
    ExecMention(s, from);
    hide MENTION, Exec;
  }

  /** The first `@` that an attempt at `from` or later can answer. */
  ghost function FirstAt(from: nat): nat {
    if from == 0 then 0 else from + 1
  }

  /** An attempt answers the first mention it can; the positions passed over hold none. */
  lemma AnswersFirst(s: string, from: nat)
    ensures from <= Answers(s, from)
    ensures MentionStop(s, Answers(s, from)).Some? ==> Handles(s, FirstAt(from)) == Handles(s, Answers(s, from))
    ensures MentionStop(s, Answers(s, from)).None? ==> Handles(s, FirstAt(from)) == Handles(s, FirstAt(from + 1))
  {
    hide MentionStop, Handles;
    if MentionStop(s, Answers(s, from)).Some? {
      SkipBarren(s, FirstAt(from), Answers(s, from));
    } else {
      SkipBarren(s, FirstAt(from), FirstAt(from + 1));
    }
  }

  /** The global scan that resumes at each match end finds the same handles as trying
      every position. */
  lemma {:induction false} ScanFindsHandles(s: string, from: nat)
    ensures GroupsOfAll(MENTION, s, from) == Handles(s, FirstAt(from))
    decreases |s| + 1 - from
  {
    hide MENTION, MentionStop, Answers, Exec;
    if from <= |s| {
      hide GroupsOfAll, Handles;
      GroupsStep(s, from);
      AnswersFirst(s, from);
      if MentionStop(s, Answers(s, from)).Some? {
        MatchStep(s, Answers(s, from));
        ScanFindsHandles(s, MentionStop(s, Answers(s, from)).value);
      } else {
        ScanFindsHandles(s, from + 1);
      }
    }
  }

  /** A mention yields its handle and leaves what opens after the character behind it. */
  lemma MatchStep(s: string, i: nat)
    requires MentionStop(s, i).Some?
    ensures Handles(s, i) ==
            [s[i + 1..MentionStop(s, i).value]] + Handles(s, FirstAt(MentionStop(s, i).value))
  {
    hide MentionStop, Handles;
    HandlesStep(s, i);
    SkipMention(s, i);
  }

  lemma SkipMention(s: string, i: nat)
    requires MentionStop(s, i).Some?
    ensures Handles(s, i + 1) == Handles(s, MentionStop(s, i).value + 1)
  {
    hide Handles;
    var stop := MentionStop(s, i).value;
    forall j | i + 1 <= j < stop + 1
      ensures MentionStop(s, j) == None
    {
      NoMentionInside(s, i, j);
    }
    SkipBarren(s, i + 1, stop + 1);
  }

  /** The longest handle at `start` that a terminator follows: extend greedily, then give
      back one character at a time. */
  method LongestStop(text: string, start: nat) returns (stop: Option<nat>)
    requires start <= |text|
    ensures stop == Stop(text, start, HandleEnd(text, start))
  {
    hide HANDLE, Accepts, IsMentionRune, IsMentionTerminator, Run;
    var end := start;
    RunStep(false, HANDLE, text, start, AtMost(MAX_HANDLE));
    while end < |text| && end - start < MAX_HANDLE && IsMentionRune(text[end])
      invariant start <= end <= |text| && end - start <= MAX_HANDLE
      invariant HandleEnd(text, start) == end + Run(false, HANDLE, text, end, AtMost(MAX_HANDLE - (end - start)))
    {
      HandleClass(text[end]);
      RunStep(false, HANDLE, text, end, AtMost(MAX_HANDLE - (end - start)));
      end := end + 1;
    }
    if end < |text| {
      HandleClass(text[end]);
    }
    RunStep(false, HANDLE, text, end, AtMost(MAX_HANDLE - (end - start)));
    var candidate := end;
    while candidate > start
      invariant start <= candidate <= end
      invariant Stop(text, start, end) == Stop(text, start, candidate)
    {
      if candidate < |text| && !IsMentionTerminator(text[candidate]) {
        candidate := candidate - 1;
        continue;
      }
      return Some(candidate);
    }
    return None;
  }

  /** Equals the deduplicated global matches of the platform's mention pattern. */
  method ExtractMentions(text: string) returns (found: seq<string>)
    ensures found == Mentions(text)
  {
    hide GroupsOfAll, MENTION, Stop, HandleEnd, Dedup;
    assert Dedup<string>([]) == [];
    var seen: set<string> := {};
    found := [];
    ghost var all: seq<string> := [];
    var i := 0;
    while i < |text|
      invariant 0 <= i <= |text|
      invariant all + Handles(text, i) == Handles(text, 0)
      invariant found == Dedup(all)
      invariant forall h :: h in seen <==> h in found
    {
      if text[i] == '@' && (i == 0 || IsSpaceByte(text[i - 1])) {
        var stop := LongestStop(text, i + 1);
        if stop.Some? {
          var handle := text[i + 1..stop.value];
          assert all + ([handle] + Handles(text, i + 1)) == (all + [handle]) + Handles(text, i + 1);
          DedupSnoc(all, handle);
          all := all + [handle];
          if handle !in seen {
            seen := seen + {handle};
            found := found + [handle];
          }
        }
      }
      i := i + 1;
    }
    ScanFindsHandles(text, 0);
    assert all + [] == all;
  }

  // ---------------------------------------------------------------------- tag stripping

  ghost const ANY_BUT_GT: Regex := Repeat(Class(true, Only('>')), 1, Unbounded)

  ghost const CLOSE: Regex := Alt(Class(false, Only('>')), End)

  ghost const OPTIONAL_SLASH: Regex := Repeat(Class(false, Only('/')), 0, AtMost(1))

  /** <\/?[^>]+(>|$) */
  ghost const TAG: Regex := Cat(Class(false, Only('<')), Cat(OPTIONAL_SLASH, Cat(ANY_BUT_GT, CLOSE)))

  /** Where the text between a `<` and the next `>` (or the end) stops. */
  ghost function BodyEnd(s: string, i: nat): (body: nat)
    requires i <= |s|
    ensures i <= body <= |s|
    ensures body < |s| ==> s[body] == '>'
    ensures forall k :: i <= k < body ==> s[k] != '>'
  {
    var n := Run(true, Only('>'), s, i, Unbounded);
    assert forall k :: i <= k < i + n ==> s[k] != '>' by {
      forall k | i <= k < i + n
        ensures s[k] != '>'
      {
        OnlyClass('>', s[k]);
        assert Accepts(true, Only('>'), s[k]) <==> !Accepts(false, Only('>'), s[k]);
      }
    }
    assert i + n < |s| ==> s[i + n] == '>' by {
      if i + n < |s| {
        OnlyClass('>', s[i + n]);
        assert Accepts(true, Only('>'), s[i + n]) <==> !Accepts(false, Only('>'), s[i + n]);
      }
    }
    i + n
  }

  /** What the scanner keeps from position `i` on. */
  ghost function Stripped(s: string, i: nat): string
    decreases |s| - i
  {
    if i >= |s| then ""
    else if s[i] != '<' then [s[i]] + Stripped(s, i + 1)
    else if BodyEnd(s, i + 1) == i + 1 then "<" + Stripped(s, i + 1)
    else Stripped(s, BodyEnd(s, i + 1) + 1)
  }

  lemma CloseTries(s: string, body: nat)
    requires body <= |s| && (body < |s| ==> s[body] == '>')
    ensures Tries(CLOSE, s, At(body, "")) == [At(if body < |s| then body + 1 else body, "")]
  {
    ClassTries(false, Only('>'), s, At(body, ""));
    if body < |s| {
      OnlyClass('>', s[body]);
    }
  }

  /** `[^>]+(>|$)` from `p`: the longest body succeeds at once, an empty one never does. */
  lemma BodyTries(s: string, p: nat)
    requires p <= |s|
    ensures Head(Tries(Cat(ANY_BUT_GT, CLOSE), s, At(p, ""))) ==
            if BodyEnd(s, p) == p then None
            else Some(At(if BodyEnd(s, p) < |s| then BodyEnd(s, p) + 1 else |s|, ""))
  {
    hide Tries, TriesAll, Repeats, CLOSE, Run, Accepts, Only;
    var at := At(p, "");
    TriesCat(ANY_BUT_GT, CLOSE, s, at);
    TriesRepeat(Class(true, Only('>')), 1, Unbounded, s, at);
    RepeatOfClass(true, Only('>'), 1, Unbounded, s, at);
    var starts := Tries(ANY_BUT_GT, s, at);
    assert starts == Countdown(BodyEnd(s, p), p + 1, "");
    hide ANY_BUT_GT;
    if BodyEnd(s, p) == p {
      assert starts == [];
      NothingToTry(CLOSE, s);
    } else {
      HeadOfAll(CLOSE, s, starts);
      CloseTries(s, BodyEnd(s, p));
    }
  }

  lemma SlashTries(s: string, p: nat)
    requires p <= |s|
    ensures Tries(OPTIONAL_SLASH, s, At(p, "")) ==
            if p < |s| && s[p] == '/' then [At(p + 1, ""), At(p, "")] else [At(p, "")]
  {
    hide Tries, Repeats, Run, Accepts, Only;
    TriesRepeat(Class(false, Only('/')), 0, AtMost(1), s, At(p, ""));
    RepeatOfClass(false, Only('/'), 0, AtMost(1), s, At(p, ""));
    RunStep(false, Only('/'), s, p, AtMost(1));
    if p < |s| {
      OnlyClass('/', s[p]);
      RunStep(false, Only('/'), s, p + 1, AtMost(0));
    }
  }

  lemma BodyEndStep(s: string, p: nat)
    requires p < |s| && s[p] != '>'
    ensures BodyEnd(s, p) == BodyEnd(s, p + 1) > p
  {
    hide Run;
    SameBodyEnd(s, p, BodyEnd(s, p + 1));
  }

  /** The optional slash changes nothing: consumed or not, the body stops at the same `>`. */
  lemma SlashThenBody(s: string, p: nat)
    requires p <= |s|
    ensures Head(Tries(Cat(OPTIONAL_SLASH, Cat(ANY_BUT_GT, CLOSE)), s, At(p, ""))) ==
            Head(Tries(Cat(ANY_BUT_GT, CLOSE), s, At(p, "")))
  {
    hide Tries, TriesAll, OPTIONAL_SLASH, ANY_BUT_GT, CLOSE, BodyEnd;
    TriesCat(OPTIONAL_SLASH, Cat(ANY_BUT_GT, CLOSE), s, At(p, ""));
    SlashTries(s, p);
    HeadOfStarts(Cat(ANY_BUT_GT, CLOSE), s, Tries(OPTIONAL_SLASH, s, At(p, "")));
    BodyTries(s, p);
    if p < |s| && s[p] == '/' {
      BodyTries(s, p + 1);
      BodyEndStep(s, p);
    }
  }

  lemma ExecTag(s: string, m: nat)
    ensures Exec(TAG, s, m) ==
            if m < |s| && s[m] == '<' && BodyEnd(s, m + 1) != m + 1
            then Some(At(if BodyEnd(s, m + 1) < |s| then BodyEnd(s, m + 1) + 1 else |s|, "")) else None
  {
    var tail := Cat(OPTIONAL_SLASH, Cat(ANY_BUT_GT, CLOSE));
    hide Tries, Accepts, Only, OPTIONAL_SLASH, ANY_BUT_GT, CLOSE, BodyEnd;
    ClassTries(false, Only('<'), s, At(m, ""));
    if m < |s| {
      OnlyClass('<', s[m]);
    }
    if m < |s| && s[m] == '<' {
      TriesCatSingle(Class(false, Only('<')), tail, s, At(m, ""), At(m + 1, ""));
      SlashThenBody(s, m + 1);
      BodyTries(s, m + 1);
    } else {
      TriesCatNone(Class(false, Only('<')), tail, s, At(m, ""));
    }
  }

  /** Global removal of the tag pattern keeps exactly what the scanner keeps. */
  lemma {:induction false} RemovalIsStripping(s: string, from: nat)
    ensures RemoveAll(TAG, s, from) == Stripped(s, from)
    decreases |s| + 1 - from
  {
    hide Exec, TAG, BodyEnd;
    if from <= |s| {
      ExecTag(s, from);
      RemovalIsStripping(s, from + 1);
      if from < |s| && s[from] == '<' && BodyEnd(s, from + 1) != from + 1 {
        RemovalIsStripping(s, if BodyEnd(s, from + 1) < |s| then BodyEnd(s, from + 1) + 1 else |s|);
      }
    }
  }

  /** The platform's `content.replace(/<\/?[^>]+(>|$)/g, "")`. */
  ghost function Sanitized(content: string): string {
    RemoveAll(TAG, content, 0)
  }

  method SanitizeForStorage(content: string) returns (out: string)
    ensures out == Sanitized(content)
  {
    hide RemoveAll, TAG, Stripped, BodyEnd;
    RemovalIsStripping(content, 0);
    out := "";
    if content == "" {
      EndIsStripped(content, 0);
      return;
    }
    var i := 0;
    while i < |content|
      invariant 0 <= i
      invariant out + Stripped(content, i) == Stripped(content, 0)
      decreases |content| - i
    {
      StrippedStep(out, content, i);
      if content[i] != '<' {
        out := out + [content[i]];
        i := i + 1;
        continue;
      }
      var body := i + 1;
      while body < |content| && content[body] != '>'
        invariant i + 1 <= body <= |content|
        invariant forall k :: i + 1 <= k < body ==> content[k] != '>'
      {
        body := body + 1;
      }
      SameBodyEnd(content, i + 1, body);
      if body == i + 1 {
        out := out + "<";
        i := i + 1;
        continue;
      }
      i := body + 1;
    }
    EndIsStripped(content, i);
    assert out + "" == out;
  }

  lemma EndIsStripped(s: string, i: nat)
    requires i >= |s|
    ensures Stripped(s, i) == ""
  {
  }

  /** What one round of the scanner adds to its output. */
  lemma StrippedStep(out: string, s: string, i: nat)
    requires i < |s|
    ensures out + Stripped(s, i) ==
            if s[i] != '<' then (out + [s[i]]) + Stripped(s, i + 1)
            else if BodyEnd(s, i + 1) == i + 1 then (out + "<") + Stripped(s, i + 1)
            else out + Stripped(s, BodyEnd(s, i + 1) + 1)
  {
    hide BodyEnd;
    assert out + ([s[i]] + Stripped(s, i + 1)) == (out + [s[i]]) + Stripped(s, i + 1);
  }

  lemma SameBodyEnd(s: string, i: nat, body: nat)
    requires i <= body <= |s|
    requires body < |s| ==> s[body] == '>'
    requires forall k :: i <= k < body ==> s[k] != '>'
    ensures BodyEnd(s, i) == body
  {
    hide Run;
  }

  // ------------------------------------------------------ what sanitising leaves behind

  /** Every `<` is followed at once by `>` or is the last character. */
  ghost predicate Tagless(s: string) {
    forall i :: 0 <= i < |s| && s[i] == '<' ==> i == |s| - 1 || s[i + 1] == '>'
  }

  ghost predicate IsSubsequence(a: string, b: string) {
    a == "" || (b != "" && ((a[0] == b[0] && IsSubsequence(a[1..], b[1..])) || IsSubsequence(a, b[1..])))
  }

  lemma TaglessCons(c: char, rest: string)
    requires Tagless(rest)
    requires c == '<' ==> rest == "" || rest[0] == '>'
    ensures Tagless([c] + rest)
  {
    var s := [c] + rest;
    forall i | 0 <= i < |s| && s[i] == '<'
      ensures i == |s| - 1 || s[i + 1] == '>'
    {
      if i > 0 {
        assert rest[i - 1] == '<';
      }
    }
  }

  lemma {:induction false} StrippedIsTagless(s: string, i: nat)
    ensures Tagless(Stripped(s, i))
    decreases |s| - i
  {
    hide BodyEnd;
    if i < |s| {
      StrippedIsTagless(s, i + 1);
      if s[i] != '<' {
        TaglessCons(s[i], Stripped(s, i + 1));
      } else if BodyEnd(s, i + 1) == i + 1 {
        TaglessCons('<', Stripped(s, i + 1));
      } else {
        StrippedIsTagless(s, BodyEnd(s, i + 1) + 1);
      }
    }
  }

  lemma {:induction false} TaglessIsKept(s: string, i: nat)
    requires Tagless(s) && i <= |s|
    ensures Stripped(s, i) == s[i..]
    decreases |s| - i
  {
    hide Run;
    if i < |s| {
      TaglessIsKept(s, i + 1);
      assert s[i..] == [s[i]] + s[i + 1..];
      if s[i] == '<' {
        SameBodyEnd(s, i + 1, i + 1);
      }
    }
  }

  lemma {:induction false} StrippedIsSubsequence(s: string, i: nat)
    requires i <= |s|
    ensures IsSubsequence(Stripped(s, i), s[i..])
    decreases |s| - i
  {
    hide BodyEnd;
    if i < |s| {
      StrippedIsSubsequence(s, i + 1);
      assert s[i..][1..] == s[i + 1..];
      if s[i] != '<' || BodyEnd(s, i + 1) == i + 1 {
        assert ([s[i]] + Stripped(s, i + 1))[1..] == Stripped(s, i + 1);
      } else {
        var next := if BodyEnd(s, i + 1) < |s| then BodyEnd(s, i + 1) + 1 else |s|;
        StrippedIsSubsequence(s, next);
        SubsequenceOfLonger(Stripped(s, next), s, i, next);
      }
    }
  }

  lemma {:induction false} SubsequenceOfLonger(a: string, s: string, i: nat, j: nat)
    requires i <= j <= |s| && IsSubsequence(a, s[j..])
    ensures IsSubsequence(a, s[i..])
    decreases j - i
  {
    if i < j {
      SubsequenceOfLonger(a, s, i + 1, j);
      assert s[i..][1..] == s[i + 1..];
    }
  }

  /** Sanitised text is a subsequence of the content, has no tag left, and is exactly the
      text that sanitising leaves alone; in particular sanitising twice changes nothing. */
  lemma SanitizedIsClean(content: string)
    ensures IsSubsequence(Sanitized(content), content)
    ensures Tagless(Sanitized(content))
    ensures Sanitized(Sanitized(content)) == Sanitized(content)
    ensures Sanitized(content) == content <==> Tagless(content)
  {
    hide RemoveAll, TAG, Stripped, IsSubsequence, Tagless;
    RemovalIsStripping(content, 0);
    StrippedIsTagless(content, 0);
    StrippedIsSubsequence(content, 0);
    assert content[0..] == content;
    var out := Sanitized(content);
    RemovalIsStripping(out, 0);
    TaglessIsKept(out, 0);
    assert out[0..] == out;
    if Tagless(content) {
      TaglessIsKept(content, 0);
    }
  }

  lemma BodyEndBehind(a: string, b: string, i: nat)
    requires i <= |b|
    ensures BodyEnd(a + b, |a| + i) == |a| + BodyEnd(b, i)
  {
    var body := BodyEnd(b, i);
    forall k | |a| + i <= k < |a| + body ensures (a + b)[k] != '>' {
      assert (a + b)[k] == b[k - |a|];
    }
    SameBodyEnd(a + b, |a| + i, |a| + body);
  }

  /** What is kept from a position on is a matter of the text from there on. */
  lemma {:induction false} StrippedBehind(a: string, b: string, i: nat)
    ensures Stripped(a + b, |a| + i) == Stripped(b, i)
    decreases |b| - i
  {
    hide Stripped, BodyEnd;
    if i < |b| {
      assert (a + b)[|a| + i] == b[i];
      StrippedBehind(a, b, i + 1);
      BodyEndBehind(a, b, i + 1);
      StrippedFrom(a + b, |a| + i);
      StrippedFrom(b, i);
      if BodyEnd(b, i + 1) != i + 1 {
        StrippedBehind(a, b, BodyEnd(b, i + 1) + 1);
      }
    } else {
      EndIsStripped(a + b, |a| + i);
      EndIsStripped(b, i);
    }
  }

  lemma {:induction false} PlainIsKept(a: string, b: string)
    requires '<' !in a
    ensures Stripped(a + b, 0) == a + Stripped(b, 0)
  {
    if a == "" {
      assert a + b == b;
    } else {
      hide BodyEnd;
      PlainIsKept(a[1..], b);
      StrippedBehind([a[0]], a[1..] + b, 0);
      assert a + b == [a[0]] + (a[1..] + b);
      assert [a[0]] + (a[1..] + Stripped(b, 0)) == a + Stripped(b, 0);
    }
  }

  /** A `<`, something without a `>`, and then what closes it. */
  lemma TagStripped(body: string, rest: string)
    requires '>' !in body && (rest == "" || rest[0] == '>')
    ensures Stripped("<" + body + rest, 0)
            == if body == "" then "<" + Stripped(rest, 0) else Stripped(if rest == "" then "" else rest[1..], 0)
  {
    hide Stripped, BodyEnd;
    var s := "<" + body + rest;
    BodyEndsAt(body, rest);
    StrippedFrom(s, 0);
    if body == "" {
      assert s == "<" + rest;
      StrippedBehind("<", rest, 0);
    } else if rest != "" {
      assert s == ("<" + body + ">") + rest[1..];
      StrippedBehind("<" + body + ">", rest[1..], 0);
    } else {
      EndIsStripped(s, |s| + 1);
      EndIsStripped("", 0);
    }
  }

  lemma BodyEndsAt(body: string, rest: string)
    requires '>' !in body && (rest == "" || rest[0] == '>')
    ensures BodyEnd("<" + body + rest, 1) == 1 + |body|
  {
    var s := "<" + body + rest;
    forall k | 1 <= k < 1 + |body| ensures s[k] != '>' {
      assert s[k] == body[k - 1];
    }
    SameBodyEnd(s, 1, 1 + |body|);
  }

  lemma StrippedFrom(s: string, i: nat)
    requires i < |s|
    ensures Stripped(s, i)
            == if s[i] != '<' then [s[i]] + Stripped(s, i + 1)
               else if BodyEnd(s, i + 1) == i + 1 then "<" + Stripped(s, i + 1)
               else Stripped(s, BodyEnd(s, i + 1) + 1)
  {
    hide BodyEnd;
  }

  /** What sanitising does to the first `<` of a text, and so to every one: with what follows
      it up to the next `>`, or up to the end, it is removed, unless nothing is between. */
  lemma TagsAreRemoved(a: string, body: string, b: string)
    requires '<' !in a && '>' !in body
    ensures Sanitized(a) == a
    ensures body != "" ==> Sanitized(a + ("<" + body + (">" + b))) == a + Sanitized(b)
    ensures body != "" ==> Sanitized(a + ("<" + body)) == a
    ensures Sanitized(a + ("<" + (">" + b))) == a + ("<" + (">" + Sanitized(b)))
    ensures Sanitized(a + "<") == a + "<"
  {
    hide RemoveAll, TAG, Stripped, BodyEnd;
    var closed, open, bare := "<" + body + (">" + b), "<" + body, "<" + (">" + b);
    assert a + "" == a && open + "" == open && "<" + "" == "<" && "<" + "" + (">" + b) == bare;
    assert (">" + b)[1..] == b;
    EndIsStripped("", 0);
    PlainIsKept(a, "");
    PlainIsKept(a, closed);
    PlainIsKept(a, open);
    PlainIsKept(a, bare);
    PlainIsKept(a, "<");
    PlainIsKept(">", b);
    TagStripped(body, ">" + b);
    TagStripped(body, "");
    TagStripped("", ">" + b);
    TagStripped("", "");
    RemovalIsStripping(a, 0);
    RemovalIsStripping(b, 0);
    RemovalIsStripping(a + closed, 0);
    RemovalIsStripping(a + open, 0);
    RemovalIsStripping(a + bare, 0);
    RemovalIsStripping(a + "<", 0);
  }

  lemma {:induction false} HandlesAreWellFormed(s: string, i: nat)
    ensures forall h :: h in Handles(s, i) ==> WellFormedHandle(h)
    decreases |s| - i
  {
    if i < |s| {
      HandlesAreWellFormed(s, i + 1);
      if MentionStop(s, i).Some? {
        var h := s[i + 1..MentionStop(s, i).value];
        forall k | 0 <= k < |h|
          ensures IsMentionRune(h[k])
        {
          HandleClass(h[k]);
        }
      }
    }
  }

  predicate WellFormedHandle(h: string) {
    1 <= |h| <= MAX_HANDLE && forall k :: 0 <= k < |h| ==> IsMentionRune(h[k])
  }

  /** The mentions of a text: distinct handles of 1 to 30 mention characters. */
  ghost function Mentions(text: string): seq<string> {
    Dedup(GroupsOfAll(MENTION, text, 0))
  }

  lemma MentionsAreWellFormed(text: string)
    ensures NoRepeats(Mentions(text))
    ensures forall h :: h in Mentions(text) ==> WellFormedHandle(h)
  {
    hide MENTION, GroupsOfAll, WellFormedHandle, Handles;
    ScanFindsHandles(text, 0);
    HandlesAreWellFormed(text, 0);
  }

  // ------------------------------------------------------------- mentions of one handle

  /** Letters, digits, and the three marks a handle may hold. */
  ghost predicate AreHandleChars(h: string) {
    forall k :: 0 <= k < |h| ==>
      'a' <= h[k] <= 'z' || 'A' <= h[k] <= 'Z' || '0' <= h[k] <= '9' || h[k] in ['.', '_', '-']
  }

  /** A text whose only `@` that can open a mention is at `p`. */
  lemma OnlyMention(s: string, p: nat)
    requires p < |s| && forall j :: 0 <= j < |s| && j != p ==> MentionStop(s, j) == None
    ensures Mentions(s) == if MentionStop(s, p).Some? then [s[p + 1..MentionStop(s, p).value]] else []
  {
    hide MENTION, GroupsOfAll, MentionStop, Dedup;
    ScanFindsHandles(s, 0);
    SkipBarren(s, 0, p);
    HandlesStep(s, p);
    SkipBarren(s, p + 1, |s|);
    assert Handles(s, |s|) == [];
    assert Handles(s, p) == if MentionStop(s, p).Some? then [s[p + 1..MentionStop(s, p).value]] else [];
    DedupOfNoRepeats(Handles(s, p));
  }

  /** Up to thirty handle characters that another one, if not the thirty-first, ends. */
  lemma WholeRun(s: string, start: nat, h: string)
    requires start + |h| <= |s| && s[start..start + |h|] == h && AreHandleChars(h) && |h| <= 30
    requires |h| == 30 || start + |h| == |s| || !AreHandleChars([s[start + |h|]])
    ensures HandleEnd(s, start) == start + |h|
  {
    var end := start + |h|;
    forall k | start <= k < end ensures Accepts(false, HANDLE, s[k]) {
      assert s[k] == h[k - start];
      HandleClass(s[k]);
    }
    if end < |s| {
      HandleClass(s[end]);
    }
    hide Accepts, HANDLE;
  }

  lemma OpeningMention(h: string, rest: string)
    requires h != "" && AreHandleChars(h) && '@' !in rest
    ensures Mentions("@" + h + rest)
            == var s := "@" + h + rest;
               if MentionStop(s, 0).Some? then [s[1..MentionStop(s, 0).value]] else []
  {
    var s := "@" + h + rest;
    forall j | 0 < j < |s| ensures MentionStop(s, j) == None {
      assert s[j] == if j <= |h| then h[j - 1] else rest[j - 1 - |h|];
    }
    hide MentionStop, Mentions;
    OnlyMention(s, 0);
  }

  /** A handle of one to thirty characters that ends the text is found whole; of a longer one
      nothing is found unless one of its characters 2 to 31 is a dot. */
  lemma HandleAlone(h: string)
    requires h != "" && AreHandleChars(h)
    ensures |h| <= 30 ==> Mentions("@" + h) == [h]
    ensures |h| > 30 ==> (Mentions("@" + h) == [] <==> '.' !in h[1..31])
  {
    hide Mentions, HandleEnd, Stop, Run, HANDLE;
    var s := "@" + h;
    if |h| <= 30 {
      assert "@" + h + "" == s && s[1..] == h;
      WholeRun(s, 1, h);
      OpeningMention(h, "");
      assert Stop(s, 1, |s|) == Some(|s|) by {
        StopAt(s, 1, |s|);
      }
    } else {
      assert s[1..31] == h[..30] && "@" + h + "" == s;
      WholeRun(s, 1, h[..30]);
      OpeningMention(h, "");
      StopsIffTerminated(s, 1, 31);
      forall k | 1 < k <= 31 ensures IsMentionTerminator(s[k]) <==> h[1..31][k - 2] == '.' {
        assert s[k] == h[k - 1];
      }
      assert '.' in h[1..31] ==> exists k :: 1 < k <= 31 && IsMentionTerminator(s[k]) by {
        if i :| 0 <= i < 30 && h[1..31][i] == '.' {
          assert IsMentionTerminator(s[i + 2]);
        }
      }
    }
  }

  lemma StopAt(s: string, start: nat, end: nat)
    requires start < end <= |s| && (end == |s| || IsMentionTerminator(s[end]))
    ensures Stop(s, start, end) == Some(end)
  {
  }

  lemma {:induction false} StopsIffTerminated(s: string, start: nat, end: nat)
    requires end < |s|
    ensures Stop(s, start, end).Some? <==> exists k :: start < k <= end && IsMentionTerminator(s[k])
    decreases end
  {
    hide IsMentionTerminator;
    if start < end {
      StopsIffTerminated(s, start, end - 1);
    }
  }

  /** A handle that no dot is part of ends where one of these characters follows it, a dot only
      after the thirtieth, and otherwise is not found. */
  lemma HandleThen(h: string, c: char)
    requires 1 <= |h| <= 30 && AreHandleChars(h) && !AreHandleChars([c]) && c != '@'
    ensures h in Mentions("@" + h + [c]) <==>
              c in [' ', '\t', '\n', '\r', '\U{000B}', '\U{000C}', ',', '!', '?', ';', ':']
  {
    hide Mentions, HandleEnd, Stop, Run, HANDLE;
    var s := "@" + h + [c];
    var end := 1 + |h|;
    assert s[end] == c && s[1..end] == h;
    WholeRun(s, 1, h);
    OpeningMention(h, [c]);
    if IsMentionTerminator(c) {
      StopAt(s, 1, end);
    } else {
      var stop := Stop(s, 1, end);
      assert stop.Some? ==> stop.value < end by {
        StopBefore(s, 1, end);
      }
      assert stop.Some? ==> |s[1..stop.value]| < |h|;
    }
  }

  lemma StopBefore(s: string, start: nat, end: nat)
    requires start <= end < |s| && !IsMentionTerminator(s[end])
    ensures Stop(s, start, end).Some? ==> Stop(s, start, end).value < end
  {
  }

  /** Behind another character an `@` opens a mention exactly when that is whitespace. */
  lemma HandleAfter(c: char, h: string)
    requires 1 <= |h| <= 30 && AreHandleChars(h)
    ensures Mentions([c] + "@" + h)
            == if c in [' ', '\t', '\n', '\r', '\U{000B}', '\U{000C}'] then [h] else []
  {
    hide Mentions, HandleEnd, Stop, Run, HANDLE;
    var s := [c] + "@" + h;
    forall j | 0 <= j < |s| && j != 1 ensures MentionStop(s, j) == None {
      if j == 0 {
        HandleClass('@');
        NoHandleAtOnce(s, 1);
      } else {
        assert s[j] == h[j - 2];
      }
    }
    OnlyMention(s, 1);
    assert s[2..|s|] == h;
    WholeRun(s, 2, h);
    StopAt(s, 2, |s|);
  }

  lemma NoHandleAtOnce(s: string, start: nat)
    requires start < |s| && !Accepts(false, HANDLE, s[start])
    ensures Stop(s, start, HandleEnd(s, start)) == None
  {
    hide Accepts, HANDLE;
  }

  /** One character behind an `@` is a handle exactly when it is a letter, a digit, or one of
      the three marks. */
  lemma OneCharacter(c: char)
    ensures Mentions("@" + [c]) == if AreHandleChars([c]) then [[c]] else []
  {
    hide Mentions, HandleEnd, Stop, Run, HANDLE;
    var s := "@" + [c];
    if AreHandleChars([c]) {
      HandleAlone([c]);
    } else {
      assert s[1] == c;
      HandleClass(c);
      NoHandleAtOnce(s, 1);
      assert MentionStop(s, 1) == None;
      OnlyMention(s, 0);
    }
  }
}
