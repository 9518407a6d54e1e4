/** Small vocabulary shared by every module: an optional value and a span of time. */
module Common {
  datatype Option<+T> = None | Some(value: T)

  /** Elapsed wall-clock seconds. The clock never runs backwards in this model. */
  type Duration = d: real | d >= 0.0 witness 0.0

  type Positive = n: nat | n >= 1 witness 1

  function Max(a: int, b: int): int {
    if a < b then b else a
  }

  function Min(a: int, b: int): int {
    if a < b then a else b
  }

  /** The same queue without its first occurrence of `x` (Python's `list.remove`, made total). */
  function Remove<T(==)>(s: seq<T>, x: T): seq<T> {
    if s == [] then [] else if s[0] == x then s[1..] else [s[0]] + Remove(s[1..], x)
  }

  lemma {:induction false} RemoveAbsent<T>(s: seq<T>, x: T)
    requires x !in s
    ensures Remove(s, x) == s
  {
    if s != [] {
      RemoveAbsent(s[1..], x);
    }
  }

  lemma CutTail<T>(s: seq<T>, j: nat)
    requires j < |s| - 1
    ensures [s[0]] + (s[1..][..j] + s[1..][j + 1..]) == s[..j + 1] + s[j + 2..]
  {
  }

  lemma {:induction false} RemoveSplits<T>(s: seq<T>, x: T) returns (k: nat)
    requires x in s
    ensures k < |s| && s[k] == x && Remove(s, x) == s[..k] + s[k + 1..]
  {
    if s[0] == x {
      k := 0;
      assert s[..0] + s[1..] == s[1..];
    } else {
      var j := RemoveSplits(s[1..], x);
      k := j + 1;
      CutTail(s, j);
    }
  }

  lemma RemoveKeeps<T>(s: seq<T>, x: T)
    ensures x !in s ==> Remove(s, x) == s
    ensures forall y | y in Remove(s, x) :: y in s
  {
    if x in s {
      var k := RemoveSplits(s, x);
    } else {
      RemoveAbsent(s, x);
    }
  }

  ghost predicate NoDuplicates<T(!new)>(s: seq<T>) {
    forall i, j | 0 <= i < j < |s| :: s[i] != s[j]
  }
}
