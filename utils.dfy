/** General client helpers: `truncate` and the Fisher–Yates `shuffleArray`.
    The random draw of each shuffle step is the parameter `pick`: step `i`
    swaps position `i` with position `pick(i) % (i + 1)`, which ranges over
    exactly the indices `Math.floor(Math.random() * (i + 1))` can take. */
module Utils {

  // ---------------------------------------------------------------------
  // truncate

  /** `truncate(str, length)`: the empty string stays empty; a string
      longer than `length` keeps its first `length` characters (none when
      `length` is negative, as `substring` clamps) followed by "..."; any
      other string is returned as is. */
  function Truncate(str: string, length: int): (r: string)
    ensures str == "" ==> r == ""
    ensures |str| <= length ==> r == str
    ensures str != "" && |str| > length ==>
              r == str[..if length < 0 then 0 else length] + "..." &&
              |r| == (if length < 0 then 0 else length) + 3
  {
    if str == "" then ""
    else if |str| > length then str[..if length < 0 then 0 else length] + "..."
    else str
  }

  /** A truncated string never exceeds `length + 3` characters, and it
      always begins with the original's first `length` characters (all of
      them when the original is shorter). */
  lemma TruncateBounds(str: string, length: nat)
    ensures |Truncate(str, length)| <= length + 3
    ensures var k := if |str| < length then |str| else length;
            k <= |Truncate(str, length)| && Truncate(str, length)[..k] == str[..k]
  {
  }

  /** Truncating twice to the same length is truncating once: the marked
      result is itself too long, and its first `length` characters are the
      ones already kept. */
  lemma TruncateIdempotent(str: string, length: int)
    ensures Truncate(Truncate(str, length), length) == Truncate(str, length)
  {
    if str != "" && |str| > length {
      var n := if length < 0 then 0 else length;
      var once := str[..n] + "...";
      assert once[..n] == str[..n];
    }
  }

  // ---------------------------------------------------------------------
  // shuffleArray

  /** `[s[i], s[j]] = [s[j], s[i]]`. */
  function Swap<T>(s: seq<T>, i: int, j: int): (r: seq<T>)
    requires 0 <= i < |s| && 0 <= j < |s|
    ensures |r| == |s|
    ensures r[i] == s[j] && r[j] == s[i]
    ensures forall k :: 0 <= k < |s| && k != i && k != j ==> r[k] == s[k]
  {
    s[i := s[j]][j := s[i]]
  }

  /** The index step `i` swaps with. */
  function Draw(pick: nat -> nat, i: nat): (j: nat)
    ensures j <= i
  {
    pick(i) % (i + 1)
  }

  /** The shuffle steps `i`, `i - 1`, ..., 1 applied to `s` in that order. */
  function Steps<T>(s: seq<T>, pick: nat -> nat, i: int): (r: seq<T>)
    requires i < |s|
    ensures |r| == |s|
    decreases i
  {
    if i <= 0 then s else Steps(Swap(s, i, Draw(pick, i)), pick, i - 1)
  }

  lemma StepsUnfold<T>(s: seq<T>, pick: nat -> nat, i: int)
    requires 0 < i < |s|
    ensures Steps(s, pick, i) == Steps(Swap(s, i, Draw(pick, i)), pick, i - 1)
  {
  }

  /** The whole shuffle: steps `|s| - 1` down to 1. */
  function Shuffled<T>(s: seq<T>, pick: nat -> nat): (r: seq<T>)
    ensures |r| == |s|
  {
    Steps(s, pick, |s| - 1)
  }

  /** A swap permutes. */
  lemma SwapPermutes<T>(s: seq<T>, i: int, j: int)
    requires 0 <= i < |s| && 0 <= j < |s|
    ensures multiset(Swap(s, i, j)) == multiset(s)
  {
    var t := s[i := s[j]];
    assert multiset(t) == multiset(s) - multiset{s[i]} + multiset{s[j]};
    assert t[j] == s[j];
    assert multiset(t[j := s[i]]) == multiset(t) - multiset{t[j]} + multiset{s[i]};
  }

  /** Every run of steps permutes: the result holds the same elements, with
      the same multiplicities, as the input. */
  lemma {:induction false} StepsPermute<T>(s: seq<T>, pick: nat -> nat, i: int)
    requires i < |s|
    ensures multiset(Steps(s, pick, i)) == multiset(s)
    decreases i
  {
    if i > 0 {
      SwapPermutes(s, i, Draw(pick, i));
      StepsPermute(Swap(s, i, Draw(pick, i)), pick, i - 1);
    }
  }

  lemma ShuffledPermutes<T>(s: seq<T>, pick: nat -> nat)
    ensures multiset(Shuffled(s, pick)) == multiset(s)
  {
    StepsPermute(s, pick, |s| - 1);
  }

  /** When every draw lands on the step's own index, no element moves. */
  lemma {:induction false} StepsIdentity<T>(s: seq<T>, pick: nat -> nat, i: int)
    requires i < |s|
    requires forall k: nat :: 1 <= k <= i ==> Draw(pick, k) == k
    ensures Steps(s, pick, i) == s
    decreases i
  {
    if i > 0 {
      assert Swap(s, i, i) == s;
      StepsIdentity(s, pick, i - 1);
    }
  }

  /** Arrays of zero or one element come back as they are. */
  lemma ShortArraysUnchanged<T>(s: seq<T>, pick: nat -> nat)
    requires |s| <= 1
    ensures Shuffled(s, pick) == s
  {
  }

  /** `shuffleArray`: copy the input, then for `i` from `length - 1` down
      to 1 swap element `i` with element `pick(i) % (i + 1)`. The input
      array is left alone and the result is a permutation of it. */
  method ShuffleArray<T>(a: array<T>, pick: nat -> nat) returns (b: array<T>)
    ensures fresh(b)
    ensures a[..] == old(a[..])
    ensures b[..] == Shuffled(a[..], pick)
    ensures multiset(b[..]) == multiset(a[..])
  {
    b := new T[a.Length](k reads a requires 0 <= k < a.Length => a[k]);
    ghost var input := a[..];
    ghost var cur := input;
    ghost var goal := Shuffled(input, pick);
    var i := b.Length - 1;
    while i > 0
      invariant i < |cur| == b.Length
      invariant forall k :: 0 <= k < b.Length ==> b[k] == cur[k]
      invariant Steps(cur, pick, i) == goal
      decreases i
    {
      var j := Draw(pick, i);
      StepsUnfold(cur, pick, i);
      b[i], b[j] := b[j], b[i];
      cur := Swap(cur, i, j);
      i := i - 1;
    }
    assert b[..] == cur;
    ShuffledPermutes(input, pick);
  }
}
