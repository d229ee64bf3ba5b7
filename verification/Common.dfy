/** Small things that several components share. */
module Common {

  datatype Option<+T> = None | Some(value: T)

  function Min(a: int, b: int): int { if a < b then a else b }

  function Max(a: int, b: int): int { if a > b then a else b }

  ghost predicate Distinct<T>(s: seq<T>) { forall i, j :: 0 <= i < j < |s| ==> s[i] != s[j] }

  predicate IsUpper(c: char) { 'A' <= c <= 'Z' }

  predicate IsLower(c: char) { 'a' <= c <= 'z' }

  predicate IsDigit(c: char) { '0' <= c <= '9' }

  predicate IsAlnum(c: char) { IsUpper(c) || IsLower(c) || IsDigit(c) }

  function LowerChar(c: char): char { if IsUpper(c) then c - 'A' + 'a' else c }

  function UpperChar(c: char): char { if IsLower(c) then c - 'a' + 'A' else c }

  /** The elements that pass the test, in order. */
  ghost function Select<T>(s: seq<T>, test: T -> bool): seq<T> {
    if s == [] then []
    else
      var n := |s| - 1;
      Select(s[..n], test) + if test(s[n]) then [s[n]] else []
  }

  lemma {:induction false} SelectCount<T>(s: seq<T>, test: T -> bool, x: T)
    ensures multiset(Select(s, test))[x] == if test(x) then multiset(s)[x] else 0
  {
    if s != [] {
      var n := |s| - 1;
      SelectCount(s[..n], test, x);
      assert s == s[..n] + [s[n]];
    }
  }

  lemma SelectSnoc<T>(s: seq<T>, test: T -> bool, i: nat)
    requires i < |s|
    ensures Select(s[..i + 1], test) == Select(s[..i], test) + if test(s[i]) then [s[i]] else []
  {
    assert s[..i + 1][..i] == s[..i];
  }

  lemma {:induction false} SelectNonEmpty<T>(s: seq<T>, test: T -> bool)
    ensures Select(s, test) != [] <==> exists i :: 0 <= i < |s| && test(s[i])
  {
    if s != [] {
      var n := |s| - 1;
      SelectNonEmpty(s[..n], test);
      assert forall i :: 0 <= i < n ==> s[..n][i] == s[i];
    }
  }
}
