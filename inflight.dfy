/**
 * The list of in-flight fetches is a std::list of file specs; std::list::remove
 * erases every element equal to its argument and keeps the rest in order.
 */
module InflightList {

  /** s with every occurrence of p removed. */
  function Without<T(==)>(s: seq<T>, p: T): seq<T> {
    if s == [] then []
    else if s[0] == p then Without(s[1..], p)
    else [s[0]] + Without(s[1..], p)
  }

  /** An element survives exactly when it was there and is not the one removed. */
  lemma {:induction false} WithoutMembers<T>(s: seq<T>, p: T, x: T)
    ensures x in Without(s, p) <==> x in s && x != p
  {
    if s != [] {
      WithoutMembers(s[1..], p, x);
      assert s == [s[0]] + s[1..];
    }
  }

  /** Every other element keeps its number of occurrences; p has none left. */
  lemma {:induction false} WithoutCounts<T>(s: seq<T>, p: T, x: T)
    ensures multiset(Without(s, p))[x] == if x == p then 0 else multiset(s)[x]
  {
    if s != [] {
      WithoutCounts(s[1..], p, x);
      assert s == [s[0]] + s[1..];
    }
  }

  /** Removing an element that is not there changes nothing. */
  lemma {:induction false} WithoutAbsent<T>(s: seq<T>, p: T)
    requires p !in s
    ensures Without(s, p) == s
  {
    if s != [] {
      WithoutAbsent(s[1..], p);
      assert s == [s[0]] + s[1..];
    }
  }

  /** Removal distributes over concatenation, so the survivors keep their order. */
  lemma {:induction false} WithoutAppend<T>(s: seq<T>, t: seq<T>, p: T)
    ensures Without(s + t, p) == Without(s, p) + Without(t, p)
  {
    if s == [] {
      assert s + t == t;
    } else {
      assert (s + t)[1..] == s[1..] + t;
      WithoutAppend(s[1..], t, p);
    }
  }

  /** Removing p twice is removing it once. */
  lemma {:induction false} WithoutIdempotent<T>(s: seq<T>, p: T)
    ensures Without(Without(s, p), p) == Without(s, p)
  {
    WithoutMembers(s, p, p);
    WithoutAbsent(Without(s, p), p);
  }
}
