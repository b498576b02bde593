/**
 * The few C string routines the request handler relies on (strstr, index,
 * strcasecmp), stated over `string` values. A C string here is the sequence
 * of characters before its terminating NUL.
 */
module CStrings {

  datatype Option<T> = None | Some(value: T)

  /** `pat` occurs in `s` starting at position `i`. */
  ghost predicate OccursAt(s: string, pat: string, i: int)
  {
    0 <= i && i + |pat| <= |s| && s[i..i + |pat|] == pat
  }

  /** An occurrence in `s[1..]` is an occurrence in `s` one position later, and back. */
  lemma OccursAtShift(s: string, pat: string, i: int)
    requires |s| > 0 && 0 <= i
    ensures OccursAt(s[1..], pat, i) <==> OccursAt(s, pat, i + 1)
  {
  }

  /**
   * `strstr(s, pat) != NULL`: a left-to-right scan for `pat`.
   * The result holds exactly when `pat` occurs somewhere in `s`.
   */
  function Contains(s: string, pat: string): (b: bool)
    ensures b <==> exists i :: OccursAt(s, pat, i)
    decreases |s|
  {
    if |s| < |pat| then
      assert forall i :: !OccursAt(s, pat, i);
      false
    else if s[..|pat|] == pat then
      assert OccursAt(s, pat, 0);
      true
    else
      var found := Contains(s[1..], pat);
      assert found ==> exists i :: OccursAt(s, pat, i) by {
        if found {
          var i :| OccursAt(s[1..], pat, i);
          OccursAtShift(s, pat, i);
        }
      }
      assert (exists i :: OccursAt(s, pat, i)) ==> found by {
        if exists i :: OccursAt(s, pat, i) {
          var i :| OccursAt(s, pat, i);
          assert i != 0;
          OccursAtShift(s, pat, i - 1);
        }
      }
      found
  }

  /**
   * `index(s, c)`: the position of the first occurrence of `c` in `s`,
   * or None when `c` does not occur.
   */
  function IndexOf(s: string, c: char): (r: Option<nat>)
    ensures r.None? <==> c !in s
    ensures r.Some? ==> r.value < |s| && s[r.value] == c && c !in s[..r.value]
  {
    if |s| == 0 then None
    else if s[0] == c then Some(0)
    else
      match IndexOf(s[1..], c)
      case None => None
      case Some(k) =>
        assert s[..k + 1] == [s[0]] + s[1..][..k];
        Some(k + 1)
  }

  /** `tolower` in the C locale: only 'A'..'Z' change. */
  function Lower(c: char): char
  {
    if 'A' <= c <= 'Z' then (c as int - 'A' as int + 'a' as int) as char else c
  }

  /**
   * `strcasecmp(a, b) == 0`: the strings have the same length and agree
   * character by character once both sides are lowered.
   */
  function CaseEqual(a: string, b: string): (eq: bool)
    ensures eq <==> |a| == |b| && forall i :: 0 <= i < |a| ==> Lower(a[i]) == Lower(b[i])
  {
    if |a| == 0 || |b| == 0 then |a| == 0 && |b| == 0
    else
      var rest := CaseEqual(a[1..], b[1..]);
      assert rest <==> |a| == |b| && forall i :: 1 <= i < |a| ==> Lower(a[i]) == Lower(b[i]) by {
        if |a| == |b| {
          assert forall i :: 1 <= i < |a| ==> a[1..][i - 1] == a[i] && b[1..][i - 1] == b[i];
        }
      }
      Lower(a[0]) == Lower(b[0]) && rest
  }

  /** A method name passes `strcasecmp(method, "GET") == 0` exactly when it is GET in any letter case. */
  lemma CaseEqualGet(m: string)
    ensures CaseEqual(m, "GET") <==>
      |m| == 3 && m[0] in "Gg" && m[1] in "Ee" && m[2] in "Tt"
  {
  }
}
