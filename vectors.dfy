/** The `std::vector` operations the quest contract applies to a quest's task
    list: `std::find` (the first position holding a value, or `end()`),
    `erase` of one position, and `push_back`. */
module Vectors {

  /** Number of copies of `x` in `s`. */
  function Occurrences<T(==)>(s: seq<T>, x: T): nat {
    multiset(s)[x]
  }

  /** `std::find(s.begin(), s.end(), x)` as a position: the first index holding
      `x`, or `|s|` (the `end()` iterator) when there is none. */
  function FirstIndexOf<T(==)>(s: seq<T>, x: T): (i: nat)
    ensures i <= |s|
    ensures i < |s| ==> s[i] == x
    ensures forall j :: 0 <= j < i ==> s[j] != x
    ensures i < |s| <==> x in s
    decreases |s|
  {
    if |s| == 0 then 0
    else if s[0] == x then 0
    else 1 + FirstIndexOf(s[1..], x)
  }

  /** The linear scan `std::find` performs. */
  method Find<T(==)>(s: seq<T>, x: T) returns (i: nat)
    ensures i == FirstIndexOf(s, x)
  {
    i := 0;
    while i < |s| && s[i] != x
      invariant i <= |s|
      invariant forall j :: 0 <= j < i ==> s[j] != x
    {
      i := i + 1;
    }
  }

  /** `v.erase(v.begin() + i)`: the element at `i` goes, the others keep
      their order. */
  function EraseAt<T(==)>(s: seq<T>, i: nat): (r: seq<T>)
    requires i < |s|
    ensures |r| == |s| - 1
    ensures forall j :: 0 <= j < i ==> r[j] == s[j]
    ensures forall j :: i <= j < |r| ==> r[j] == s[j + 1]
    ensures multiset(r) == multiset(s) - multiset{s[i]}
  {
    assert s == s[..i] + [s[i]] + s[i + 1..];
    s[..i] + s[i + 1..]
  }

  /** `v.erase(std::find(v.begin(), v.end(), x))` once the match is known to
      exist. */
  function RemoveFirst<T(==)>(s: seq<T>, x: T): seq<T>
    requires x in s
  {
    EraseAt(s, FirstIndexOf(s, x))
  }

  /** Removing the first match takes out exactly the first copy of `x`: what
      precedes it and what follows it stay, in order, and every other value
      keeps its count. */
  lemma RemoveFirstSpec<T>(s: seq<T>, x: T)
    requires x in s
    ensures var i, r := FirstIndexOf(s, x), RemoveFirst(s, x);
      && i < |s| && s[i] == x && x !in s[..i]
      && r == s[..i] + s[i + 1..]
      && |r| == |s| - 1
      && Occurrences(r, x) == Occurrences(s, x) - 1
      && forall y :: y != x ==> Occurrences(r, y) == Occurrences(s, y)
  {
    var i, r := FirstIndexOf(s, x), RemoveFirst(s, x);
    assert s[i] == x;
    assert r == s[..i] + s[i + 1..];
  }

  /** `push_back` adds exactly one copy of `x`, at the end, and leaves every
      other count alone. */
  lemma PushBackCounts<T>(s: seq<T>, x: T)
    ensures (s + [x])[|s|] == x && (s + [x])[..|s|] == s
    ensures Occurrences(s + [x], x) == Occurrences(s, x) + 1
    ensures forall y :: y != x ==> Occurrences(s + [x], y) == Occurrences(s, y)
  {
    assert multiset(s + [x]) == multiset(s) + multiset{x};
  }
}
