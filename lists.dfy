/** The .NET `List<T>` operations the spline code relies on, on sequences. */
module Lists {

  /** `List.IndexOf`: the position of the first occurrence of `x`, or -1. */
  function IndexOf<T(==)>(s: seq<T>, x: T): (r: int)
    ensures -1 <= r < |s|
    ensures r == -1 <==> x !in s
    ensures 0 <= r ==> s[r] == x && x !in s[..r]
  {
    if |s| == 0 then -1
    else if s[0] == x then 0
    else
      var r' := IndexOf(s[1..], x);
      if r' < 0 then -1
      else
        assert s[..r' + 1] == [s[0]] + s[1..][..r'];
        r' + 1
  }

  /** `List.Remove`: drop the first occurrence of `x`, if any. */
  function RemoveFirst<T(==)>(s: seq<T>, x: T): (r: seq<T>)
    ensures x !in s ==> r == s
    ensures x in s ==> r == s[..IndexOf(s, x)] + s[IndexOf(s, x) + 1..]
    ensures multiset(r) == multiset(s) - multiset{x}
    ensures forall y :: y in r ==> y in s
  {
    var i := IndexOf(s, x);
    if i < 0 then s
    else
      assert s == s[..i] + [x] + s[i + 1..];
      s[..i] + s[i + 1..]
  }

  /** `List.Insert(index, x)`. */
  function InsertAt<T>(s: seq<T>, index: int, x: T): (r: seq<T>)
    requires 0 <= index <= |s|
    ensures |r| == |s| + 1 && r[index] == x
    ensures r[..index] == s[..index] && r[index + 1..] == s[index..]
  {
    s[..index] + [x] + s[index..]
  }
}
