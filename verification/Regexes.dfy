/** A small regular-expression matcher with the ordered choice of JavaScript's backtracking
    engine, and the two global loops built on it. Matching yields every success in the
    order the engine would try them; the engine's answer is the first. */
module Regexes {
  import opened Collections

  datatype Regex =
    | Class(negated: bool, ranges: set<(char, char)>)
    | Start
    | End
    | Cat(first: Regex, second: Regex)
    | Alt(left: Regex, right: Regex)
    | Repeat(body: Regex, least: nat, most: Bound)
    | Group(body: Regex)
    | Ahead(body: Regex)

  datatype Bound = AtMost(n: nat) | Unbounded

  /** A position in the text and what the one capturing group holds. */
  datatype At = At(pos: nat, captured: string)

  ghost predicate InRanges(ranges: set<(char, char)>, c: char) {
    exists lo, hi :: (lo, hi) in ranges && lo <= c <= hi
  }

  ghost predicate Accepts(negated: bool, ranges: set<(char, char)>, c: char) {
    InRanges(ranges, c) != negated
  }

  function Less(most: Bound): Bound {
    match most
    case AtMost(n) => AtMost(if n == 0 then 0 else n - 1)
    case Unbounded => Unbounded
  }

  /** Every way `r` can match from `at`, in the order backtracking would find them. */
  ghost function Tries(r: Regex, s: string, at: At): (ends: seq<At>)
    decreases r, 0, 0, 0, 0, 0
  {
    match r
    case Class(negated, ranges) =>
      if at.pos < |s| && Accepts(negated, ranges, s[at.pos]) then [At(at.pos + 1, at.captured)] else []
    case Start => if at.pos == 0 then [at] else []
    case End => if at.pos == |s| then [at] else []
    case Cat(first, second) => TriesAll(second, s, Tries(first, s, at))
    case Alt(left, right) => Tries(left, s, at) + Tries(right, s, at)
    case Repeat(body, least, most) => Repeats(body, least, most, s, at)
    case Group(body) => Capture(s, at.pos, Tries(body, s, at))
    case Ahead(body) => if Tries(body, s, at) == [] then [] else [at]
  }

  ghost function TriesAll(r: Regex, s: string, starts: seq<At>): (ends: seq<At>)
    decreases r, 1, |starts|, 0, 0, 0
  {
    if starts == [] then [] else Tries(r, s, starts[0]) + TriesAll(r, s, starts[1..])
  }

  /** Greedy repetition: one more round first, stopping second. Once the minimum is met, a
      round that consumes nothing is not taken. */
  ghost function Repeats(body: Regex, least: nat, most: Bound, s: string, at: At): (ends: seq<At>)
    decreases body, 2, least, |s| - at.pos, 1, 0
  {
    if most == AtMost(0) then [at]
    else if least > 0 then
      RepeatsAll(body, least - 1, Less(most), s, Tries(body, s, at), |s| + 1)
    else
      RepeatsAll(body, 0, Less(most), s, Tries(body, s, at), |s| - at.pos) + [at]
  }

  /** Further rounds from each start in turn that leaves less than `room` characters. */
  ghost function RepeatsAll(
    body: Regex, least: nat, most: Bound, s: string, starts: seq<At>, room: int): (ends: seq<At>)
    decreases body, 2, least, room, 0, |starts|
  {
    if starts == [] then []
    else
      (if 0 <= |s| - starts[0].pos < room then Repeats(body, least, most, s, starts[0]) else []) +
      RepeatsAll(body, least, most, s, starts[1..], room)
  }

  function Slice(s: string, from: nat, to: nat): string {
    if from <= to <= |s| then s[from..to] else ""
  }

  ghost function Capture(s: string, from: nat, ends: seq<At>): (r: seq<At>)
    ensures |r| == |ends|
    ensures forall i :: 0 <= i < |r| ==> r[i] == At(ends[i].pos, Slice(s, from, ends[i].pos))
  {
    seq(|ends|, i requires 0 <= i < |ends| => At(ends[i].pos, Slice(s, from, ends[i].pos)))
  }

  ghost function Head(ends: seq<At>): Option<At> {
    if ends == [] then None else Some(ends[0])
  }

  /** One match attempt at a fixed position. */
  ghost function Exec(r: Regex, s: string, from: nat): (m: Option<At>) {
    Head(Tries(r, s, At(from, "")))
  }

  /** `matchAll` with a global pattern: leftmost match, then on from its end; an empty match
      moves on by one. Yields the group of every match. */
  ghost function GroupsOfAll(r: Regex, s: string, from: nat): seq<string>
    decreases |s| + 1 - from
  {
    if from > |s| then []
    else
      match Exec(r, s, from)
      case None => GroupsOfAll(r, s, from + 1)
      case Some(m) => [m.captured] + GroupsOfAll(r, s, if m.pos > from then m.pos else from + 1)
  }

  /** `replace` of every match of a global pattern by nothing. */
  ghost function RemoveAll(r: Regex, s: string, from: nat): string
    decreases |s| + 1 - from
  {
    if from > |s| then ""
    else
      match Exec(r, s, from)
      case None => Slice(s, from, from + 1) + RemoveAll(r, s, from + 1)
      case Some(m) =>
        if m.pos > from then RemoveAll(r, s, m.pos)
        else Slice(s, from, from + 1) + RemoveAll(r, s, from + 1)
  }

  // ------------------------------------------------------- how the combinators compose

  lemma TriesGroup(body: Regex, s: string, at: At)
    ensures Tries(Group(body), s, at) == Capture(s, at.pos, Tries(body, s, at))
  {
    hide TriesAll, Repeats, RepeatsAll, Capture;
  }

  lemma TriesRepeat(body: Regex, least: nat, most: Bound, s: string, at: At)
    ensures Tries(Repeat(body, least, most), s, at) == Repeats(body, least, most, s, at)
  {
    hide TriesAll, Repeats, RepeatsAll, Capture;
  }

  lemma TriesCat(first: Regex, second: Regex, s: string, at: At)
    ensures Tries(Cat(first, second), s, at) == TriesAll(second, s, Tries(first, s, at))
  {
    hide TriesAll, Repeats, RepeatsAll, Capture;
  }

  lemma NothingToTry(r: Regex, s: string)
    ensures TriesAll(r, s, []) == []
  {
    hide Tries;
  }

  /** From a single start, the second pattern decides alone. */
  lemma TriesCatSingle(first: Regex, second: Regex, s: string, at: At, mid: At)
    requires Tries(first, s, at) == [mid]
    ensures Tries(Cat(first, second), s, at) == Tries(second, s, mid)
  {
    hide Tries;
    TriesCat(first, second, s, at);
    assert [mid][1..] == [];
    NothingToTry(second, s);
    assert Tries(second, s, mid) + [] == Tries(second, s, mid);
  }

  lemma TriesCatNone(first: Regex, second: Regex, s: string, at: At)
    requires Tries(first, s, at) == []
    ensures Tries(Cat(first, second), s, at) == []
  {
    hide Tries;
    TriesCat(first, second, s, at);
    NothingToTry(second, s);
  }

  /** Backtracking: a start without a success is passed over. */
  lemma HeadOfAll(r: Regex, s: string, starts: seq<At>)
    requires starts != []
    ensures Head(TriesAll(r, s, starts)) ==
            if Tries(r, s, starts[0]) != [] then Head(Tries(r, s, starts[0]))
            else Head(TriesAll(r, s, starts[1..]))
  {
    hide Tries;
    if Tries(r, s, starts[0]) == [] {
      assert [] + TriesAll(r, s, starts[1..]) == TriesAll(r, s, starts[1..]);
    }
  }

  /** Length of the longest run of accepted characters from `i`, at most `most`. */
  ghost function Run(negated: bool, ranges: set<(char, char)>, s: string, i: nat, most: Bound): (n: nat)
    requires i <= |s|
    ensures i + n <= |s|
    ensures forall k :: i <= k < i + n ==> Accepts(negated, ranges, s[k])
    ensures most.AtMost? ==> n <= most.n
    ensures i + n == |s| || most == AtMost(n) || !Accepts(negated, ranges, s[i + n])
    decreases |s| - i
  {
    if i == |s| || most == AtMost(0) || !Accepts(negated, ranges, s[i]) then 0
    else 1 + Run(negated, ranges, s, i + 1, Less(most))
  }

  /** The positions hi, hi-1, ..., lo. */
  ghost function Countdown(hi: nat, lo: nat, captured: string): (r: seq<At>)
    ensures |r| == if hi < lo then 0 else hi - lo + 1
    ensures forall i :: 0 <= i < |r| ==> r[i] == At(hi - i, captured)
  {
    var n := if hi < lo then 0 else hi - lo + 1;
    seq(n, i requires 0 <= i < n => At(hi - i, captured))
  }

  lemma RepeatsAllSingle(body: Regex, least: nat, most: Bound, s: string, start: At, room: int)
    requires 0 <= |s| - start.pos < room
    ensures RepeatsAll(body, least, most, s, [start], room) == Repeats(body, least, most, s, start)
  {
    hide Repeats;
    assert [start][1..] == [];
    assert RepeatsAll(body, least, most, s, [], room) == [];
    assert Repeats(body, least, most, s, start) + [] == Repeats(body, least, most, s, start);
  }

  lemma RepeatsUnfold(c: Regex, least: nat, most: Bound, s: string, at: At)
    requires most != AtMost(0)
    ensures Repeats(c, least, most, s, at) ==
            if least > 0 then RepeatsAll(c, least - 1, Less(most), s, Tries(c, s, at), |s| + 1)
            else RepeatsAll(c, 0, Less(most), s, Tries(c, s, at), |s| - at.pos) + [at]
  {
    hide Tries, RepeatsAll, Less;
  }

  lemma RepeatsStep(c: Regex, least: nat, most: Bound, s: string, at: At, next: At)
    requires at.pos < next.pos <= |s| && most != AtMost(0)
    requires Tries(c, s, at) == [next]
    ensures Repeats(c, least, most, s, at) ==
            Repeats(c, if least > 0 then least - 1 else 0, Less(most), s, next) +
            (if least == 0 then [at] else [])
  {
    hide Tries, RepeatsAll, Repeats, Less;
    RepeatsUnfold(c, least, most, s, at);
    if least > 0 {
      RepeatsAllSingle(c, least - 1, Less(most), s, next, |s| + 1);
      assert Repeats(c, least - 1, Less(most), s, next) + [] == Repeats(c, least - 1, Less(most), s, next);
    } else {
      RepeatsAllSingle(c, 0, Less(most), s, next, |s| - at.pos);
    }
  }

  lemma RepeatsStop(c: Regex, least: nat, most: Bound, s: string, at: At)
    requires most != AtMost(0)
    requires Tries(c, s, at) == []
    ensures Repeats(c, least, most, s, at) == if least == 0 then [at] else []
  {
    hide Tries, Repeats, Less;
    RepeatsUnfold(c, least, most, s, at);
    assert [] + [at] == [at];
  }

  lemma ClassTries(negated: bool, ranges: set<(char, char)>, s: string, at: At)
    ensures Tries(Class(negated, ranges), s, at) ==
            if at.pos < |s| && Accepts(negated, ranges, s[at.pos]) then [At(at.pos + 1, at.captured)] else []
  {
  }

  lemma RunStep(negated: bool, ranges: set<(char, char)>, s: string, i: nat, most: Bound)
    requires i <= |s|
    ensures Run(negated, ranges, s, i, most) ==
            if i == |s| || most == AtMost(0) || !Accepts(negated, ranges, s[i]) then 0
            else 1 + Run(negated, ranges, s, i + 1, Less(most))
  {
  }

  lemma NoMoreRounds(c: Regex, least: nat, s: string, at: At)
    ensures Repeats(c, least, AtMost(0), s, at) == [at]
  {
  }

  lemma CountdownEdges(hi: nat, lo: nat, captured: string)
    ensures hi == lo ==> Countdown(hi, lo, captured) == [At(hi, captured)]
    ensures hi < lo ==> Countdown(hi, lo, captured) == []
    ensures lo <= hi ==> Countdown(hi, lo + 1, captured) + [At(lo, captured)] == Countdown(hi, lo, captured)
  {
  }

  /** One accepted character in front of a countdown makes it one longer, down to the
      minimum. */
  lemma GreedyStep(c: Regex, least: nat, most: Bound, s: string, at: At, next: At, hi: nat)
    requires at.pos < next.pos == at.pos + 1 <= |s| && next.captured == at.captured && at.pos < hi
    requires most != AtMost(0) && Tries(c, s, at) == [next]
    requires Repeats(c, if least > 0 then least - 1 else 0, Less(most), s, next)
             == Countdown(hi, next.pos + (if least > 0 then least - 1 else 0), at.captured)
    ensures Repeats(c, least, most, s, at) == Countdown(hi, at.pos + least, at.captured)
  {
    hide Tries, Repeats, RepeatsAll, Countdown, Less;
    RepeatsStep(c, least, most, s, at, next);
    if least > 0 {
      var ends := Countdown(hi, at.pos + least, at.captured);
      assert ends + [] == ends;
    } else {
      CountdownEdges(hi, at.pos, at.captured);
    }
  }

  /** A greedy repetition of one character class tries the longest run first and gives back
      one character at a time, down to the minimum. */
  lemma {:induction false} RepeatOfClass(
    negated: bool, ranges: set<(char, char)>, least: nat, most: Bound, s: string, at: At)
    requires at.pos <= |s|
    requires most.AtMost? ==> least <= most.n
    ensures Repeats(Class(negated, ranges), least, most, s, at) ==
            Countdown(at.pos + Run(negated, ranges, s, at.pos, most), at.pos + least, at.captured)
    decreases |s| - at.pos
  {
    hide Accepts, Countdown, Tries, Repeats, RepeatsAll, TriesAll, Run;
    var c, n := Class(negated, ranges), Run(negated, ranges, s, at.pos, most);
    assert n == if at.pos == |s| || most == AtMost(0) || !Accepts(negated, ranges, s[at.pos]) then 0
                else 1 + Run(negated, ranges, s, at.pos + 1, Less(most)) by {
      RunStep(negated, ranges, s, at.pos, most);
    }
    if n == 0 {
      NoneAccepted(negated, ranges, least, most, s, at);
    } else {
      var next := At(at.pos + 1, at.captured);
      assert Tries(c, s, at) == [next] by {
        ClassTries(negated, ranges, s, at);
      }
      var fewer, hi := if least > 0 then least - 1 else 0, at.pos + n;
      assert Repeats(c, fewer, Less(most), s, next) == Countdown(hi, next.pos + fewer, at.captured) by {
        RepeatOfClass(negated, ranges, fewer, Less(most), s, next);
      }
      GreedyStep(c, least, most, s, at, next, hi);
    }
  }

  lemma NoneAccepted(negated: bool, ranges: set<(char, char)>, least: nat, most: Bound, s: string, at: At)
    requires at.pos <= |s| && (most.AtMost? ==> least <= most.n)
    requires at.pos == |s| || most == AtMost(0) || !Accepts(negated, ranges, s[at.pos])
    ensures Repeats(Class(negated, ranges), least, most, s, at) == Countdown(at.pos, at.pos + least, at.captured)
  {
    hide Accepts, Countdown, Tries, Repeats, RepeatsAll, TriesAll;
    CountdownEdges(at.pos, at.pos + least, at.captured);
    if most == AtMost(0) {
      NoMoreRounds(Class(negated, ranges), least, s, at);
    } else {
      ClassTries(negated, ranges, s, at);
      RepeatsStop(Class(negated, ranges), least, most, s, at);
    }
  }
}
