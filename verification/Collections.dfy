/** Shared value types and the order-preserving list operations that the Go helpers
    `dedupe` and `distinct` compute. */
module Collections {

  datatype Option<+T> = None | Some(value: T)

  datatype Result<+T, +E> = Success(value: T) | Failure(error: E)

  ghost predicate NoRepeats<T>(s: seq<T>) {
    forall i, j :: 0 <= i < j < |s| ==> s[i] != s[j]
  }

  /** The first occurrence of every value, in order of first appearance. */
  function Dedup<T(==,!new)>(s: seq<T>): (r: seq<T>)
    ensures NoRepeats(r)
    ensures forall x :: x in r <==> x in s
    ensures r == [] <==> s == []
  {
    if s == [] then []
    else
      var front, last := s[..|s| - 1], s[|s| - 1];
      assert s == front + [last];
      var r := Dedup(front);
      if last in r then r else r + [last]
  }

  lemma DedupSnoc<T(!new)>(s: seq<T>, x: T)
    ensures Dedup(s + [x]) == if x in s then Dedup(s) else Dedup(s) + [x]
  {
    assert (s + [x])[..|s|] == s;
  }

  /** Later values only add to the end: with no repeats and the same members, this leaves one
      list, that of the first occurrences in order. */
  lemma {:induction false} DedupOfPrefix<T(!new)>(s: seq<T>, n: nat)
    requires n <= |s|
    ensures Dedup(s[..n]) <= Dedup(s)
  {
    if n == |s| {
      assert s[..n] == s;
    } else {
      assert s[..|s| - 1][..n] == s[..n];
      DedupOfPrefix(s[..|s| - 1], n);
    }
  }

  /** A list without repeats is its own deduplication. */
  lemma {:induction false} DedupOfNoRepeats<T(!new)>(s: seq<T>)
    requires NoRepeats(s)
    ensures Dedup(s) == s
  {
    if s != [] {
      var front := s[..|s| - 1];
      DedupOfNoRepeats(front);
      assert s == front + [s[|s| - 1]];
    }
  }

  function NonBlank(values: seq<string>): (r: seq<string>)
    ensures forall x :: x in r <==> x != "" && x in values
  {
    if values == [] then []
    else
      var front, last := values[..|values| - 1], values[|values| - 1];
      assert values == front + [last];
      NonBlank(front) + if last == "" then [] else [last]
  }

  lemma NonBlankSnoc(values: seq<string>, x: string)
    ensures NonBlank(values + [x]) == NonBlank(values) + if x == "" then [] else [x]
  {
    assert (values + [x])[..|values|] == values;
  }

  lemma {:induction false} NonBlankAll(values: seq<string>)
    requires "" !in values
    ensures NonBlank(values) == values
  {
    if values != [] {
      NonBlankAll(values[..|values| - 1]);
    }
  }

  lemma DistinctStep(values: seq<string>, i: nat)
    requires i < |values|
    ensures var x, out := values[i], Dedup(NonBlank(values[..i]));
            Dedup(NonBlank(values[..i + 1])) == if x == "" || x in out then out else out + [x]
  {
    hide NoRepeats, Dedup, NonBlank;
    var front := NonBlank(values[..i]);
    assert values[..i + 1] == values[..i] + [values[i]];
    NonBlankSnoc(values[..i], values[i]);
    DedupSnoc(front, values[i]);
    assert front + [] == front;
  }

  /** The loop behind both `dedupe` and `distinct`: blanks and repeats dropped. */
  method Distinct(values: seq<string>) returns (out: seq<string>)
    ensures out == Dedup(NonBlank(values))
  {
    var seen: set<string> := {};
    out := [];
    for i := 0 to |values|
      invariant out == Dedup(NonBlank(values[..i]))
      invariant forall x :: x in seen <==> x in out
    {
      hide NoRepeats, Dedup, NonBlank;
      DistinctStep(values, i);
      if values[i] == "" || values[i] in seen {
        continue;
      }
      seen := seen + {values[i]};
      out := out + [values[i]];
    }
    assert values[..|values|] == values;
  }

  /** ASCII lower case. */
  function Lower(c: char): char {
    if 'A' <= c <= 'Z' then (c as int + 32) as char else c
  }

  function ToLower(s: string): (r: string)
    ensures |r| == |s| && forall i :: 0 <= i < |s| ==> r[i] == Lower(s[i])
  {
    if s == "" then "" else [Lower(s[0])] + ToLower(s[1..])
  }

  function Reverse<T>(s: seq<T>): (r: seq<T>)
    ensures |r| == |s|
    ensures forall i :: 0 <= i < |s| ==> r[i] == s[|s| - 1 - i]
  {
    if s == [] then [] else Reverse(s[1..]) + [s[0]]
  }

  /** An injection of s into 1..n: s has at most n members. */
  lemma {:induction false} InjectionBound(s: set<nat>, f: nat -> int, n: nat)
    requires forall x :: x in s ==> 1 <= f(x) <= n
    requires forall x, y :: x in s && y in s && x != y ==> f(x) != f(y)
    ensures |s| <= n
  {
    if n == 0 {
      assert forall x :: x !in s;
      assert s == {};
    } else if x :| x in s && f(x) == n {
      InjectionBound(s - {x}, f, n - 1);
    } else {
      InjectionBound(s, f, n - 1);
    }
  }

  /** A bijection of s onto 1..|s|: exactly min(|s|, n) members are mapped to at most n. */
  lemma {:induction false} RanksUpTo(s: set<nat>, f: nat -> int, n: nat)
    requires forall x :: x in s ==> 1 <= f(x) <= |s|
    requires forall x, y :: x in s && y in s && x != y ==> f(x) != f(y)
    ensures |set x | x in s && f(x) <= n| == if |s| < n then |s| else n
    decreases |s|
  {
    var low := set x | x in s && f(x) <= n;
    if |s| <= n {
      assert low == s;
    } else if x :| x in s && f(x) == |s| {
      RanksUpTo(s - {x}, f, n);
      assert low == set y | y in s - {x} && f(y) <= n;
    } else {
      InjectionBound(s, f, |s| - 1);
      assert false;
    }
  }
}
