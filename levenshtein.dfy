/** `Levenshtein.Compute`, which the autocomplete ranking calls. Its source
    is not part of this model: the definition below is the textbook edit
    distance (insertions, deletions and substitutions of one character,
    each costing 1), taken as an assumption about that helper. */
module Levenshtein {

  function Min3(x: nat, y: nat, z: nat): (m: nat)
    ensures m <= x && m <= y && m <= z
    ensures m == x || m == y || m == z
  {
    if x <= y && x <= z then x else if y <= z then y else z
  }

  /** The least number of one-character edits that turn `a` into `b`. */
  function Distance(a: string, b: string): (d: nat)
    ensures d == 0 <==> a == b
    ensures |a| - |b| <= d && |b| - |a| <= d
    ensures d <= |a| + |b|
  {
    if a == [] then |b|
    else if b == [] then |a|
    else
      Min3(Distance(a[1..], b) + 1,
           Distance(a, b[1..]) + 1,
           Distance(a[1..], b[1..]) + (if a[0] == b[0] then 0 else 1))
  }

  /** Turning `a` into `b` costs as much as turning `b` into `a`. */
  lemma {:induction false} DistanceSymmetric(a: string, b: string)
    ensures Distance(a, b) == Distance(b, a)
  {
    if a != [] && b != [] {
      DistanceSymmetric(a[1..], b);
      DistanceSymmetric(a, b[1..]);
      DistanceSymmetric(a[1..], b[1..]);
    }
  }

  /** Never more than rewriting every position of the longer string. */
  lemma {:induction false} DistanceAtMostLonger(a: string, b: string)
    ensures Distance(a, b) <= if |a| < |b| then |b| else |a|
  {
    if a != [] && b != [] {
      DistanceAtMostLonger(a[1..], b[1..]);
    }
  }
}
