/** Go's `strings.Contains`, used by the sanctions scan of the weighted service. */
module Strings {

  predicate HasPrefix(s: string, prefix: string)
  {
    |prefix| <= |s| && s[..|prefix|] == prefix
  }

  /** `substr` occurs somewhere in `s`; the empty string occurs in every string. */
  function Contains(s: string, substr: string): (b: bool)
    ensures b <==> exists i :: 0 <= i <= |s| && HasPrefix(s[i..], substr)
    decreases |s|
  {
    if HasPrefix(s, substr) then
      assert s[0..] == s;
      true
    else if s == [] then false
    else
      var rest := Contains(s[1..], substr);
      assert forall i :: 1 <= i <= |s| ==> s[i..] == s[1..][i - 1..];
      assert rest ==> (var i :| 0 <= i <= |s| - 1 && HasPrefix(s[1..][i..], substr); HasPrefix(s[i + 1..], substr));
      rest
  }

  lemma EmptyIsContained(s: string)
    ensures Contains(s, "")
  {
    assert HasPrefix(s[0..], "");
  }
}
