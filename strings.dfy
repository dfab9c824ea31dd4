/** The two PHP string built-ins the router relies on: `strtoupper` and `rtrim($s, '/')`. */
module Strings {

  /** `strtoupper` on one character: ASCII letters only, as PHP 8.2 and later do, whatever the locale. */
  function UpperChar(c: char): (u: char) {
    if 'a' <= c <= 'z' then (c as int - 32) as char else c
  }

  /** No lower-case ASCII letter. */
  predicate NoLower(s: string) {
    forall i :: 0 <= i < |s| ==> !('a' <= s[i] <= 'z')
  }

  /** `strtoupper`: each character upper-cased in place, so no lower-case ASCII
      letter is left. */
  function Upper(s: string): (r: string)
    ensures |r| == |s|
    ensures forall i :: 0 <= i < |s| ==> r[i] == UpperChar(s[i])
    ensures NoLower(r)
  {
    if s == [] then [] else [UpperChar(s[0])] + Upper(s[1..])
  }

  /** `array_map('strtoupper', $methods)`: one upper-case string per method. */
  function UpperAll(ms: seq<string>): (r: seq<string>)
    ensures |r| == |ms|
    ensures forall i :: 0 <= i < |ms| ==> r[i] == Upper(ms[i])
    ensures forall i :: 0 <= i < |r| ==> NoLower(r[i])
  {
    seq(|ms|, i requires 0 <= i < |ms| => Upper(ms[i]))
  }

  /** Upper-casing twice is upper-casing once: a stored upper-cased method compares
      equal to any spelling of it once that spelling is upper-cased. */
  lemma {:induction false} UpperIdempotent(s: string)
    ensures Upper(Upper(s)) == Upper(s)
  {
    if s != [] {
      UpperIdempotent(s[1..]);
      assert Upper(s)[1..] == Upper(s[1..]);
    }
  }

  /** `a` and `b` differ at most in the case of ASCII letters. */
  predicate SameUpToCase(a: string, b: string) {
    |a| == |b| && forall i :: 0 <= i < |a| ==> UpperChar(a[i]) == UpperChar(b[i])
  }

  /** Two strings upper-case to the same string exactly when they differ at most
      in the case of ASCII letters. */
  lemma UpperEqIff(a: string, b: string)
    ensures Upper(a) == Upper(b) <==> SameUpToCase(a, b)
  {
    if SameUpToCase(a, b) {
      assert forall i :: 0 <= i < |a| ==> Upper(a)[i] == Upper(b)[i];
    }
    if Upper(a) == Upper(b) {
      assert forall i :: 0 <= i < |a| ==> UpperChar(a[i]) == Upper(a)[i];
    }
  }

  /** Every string in `UpperAll(ms)` is already upper case. */
  lemma UpperAllIsUpper(ms: seq<string>)
    ensures forall i :: 0 <= i < |UpperAll(ms)| ==> Upper(UpperAll(ms)[i]) == UpperAll(ms)[i]
  {
    forall i | 0 <= i < |ms| ensures Upper(UpperAll(ms)[i]) == UpperAll(ms)[i] {
      UpperIdempotent(ms[i]);
    }
  }

  /** A string without lower-case ASCII letters is its own upper case. */
  lemma {:induction false} UpperFixes(s: string)
    requires NoLower(s)
    ensures Upper(s) == s
  {
    if s != [] {
      UpperFixes(s[1..]);
    }
  }

  predicate EndsWithSlash(s: string) {
    s != [] && s[|s| - 1] == '/'
  }

  /** `rtrim($s, '/')`: strips every trailing slash and nothing else. */
  function RTrimSlash(s: string): (r: string)
    ensures r <= s
    ensures !EndsWithSlash(r)
    ensures forall i :: |r| <= i < |s| ==> s[i] == '/'
  {
    if EndsWithSlash(s) then RTrimSlash(s[..|s| - 1]) else s
  }
}
