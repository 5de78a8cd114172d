/** Lines of a text: how many separators precede a position, and how far back the last one is. */
module LineCounting {

  function Occurrences<T(==)>(s: seq<T>, x: T): nat {
    if s == [] then 0 else Occurrences(s[..|s| - 1], x) + (if s[|s| - 1] == x then 1 else 0)
  }

  /** How many elements follow the last `x`; all of them if there is none. */
  function SinceLast<T(==)>(s: seq<T>, x: T): (n: nat)
    ensures n <= |s|
  {
    if s == [] then 0 else if s[|s| - 1] == x then 0 else 1 + SinceLast(s[..|s| - 1], x)
  }

  lemma {:induction false} SplitAtSeparator<T>(s: seq<T>, x: T, rest: seq<T>)
    requires x !in s
    ensures Occurrences(s + [x] + rest, x) == 1 + Occurrences(rest, x)
    ensures SinceLast(s + [x] + rest, x) == SinceLast(rest, x)
  {
    var whole := s + [x] + rest;
    if rest == [] {
      assert whole[..|whole| - 1] == s;
      NoSeparator(s, x);
    } else {
      assert whole[..|whole| - 1] == s + [x] + rest[..|rest| - 1];
      SplitAtSeparator(s, x, rest[..|rest| - 1]);
    }
  }

  lemma {:induction false} NoSeparator<T>(s: seq<T>, x: T)
    requires x !in s
    ensures Occurrences(s, x) == 0 && SinceLast(s, x) == |s|
  {
    if s != [] { NoSeparator(s[..|s| - 1], x); }
  }
}
