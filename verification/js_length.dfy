/**
  JavaScript's `String.prototype.length`, which the signup page uses for the
  password length check: it counts UTF-16 code units, not characters.
 */
module JsLength {

  /** The number of UTF-16 code units of one code point: two for those above
      the Basic Multilingual Plane (a surrogate pair), one otherwise. */
  function CodeUnits(c: char): (n: nat)
    ensures 1 <= n <= 2
  {
    if c as int >= 0x1_0000 then 2 else 1
  }

  /** JavaScript's `s.length`: UTF-16 code units, between one and two per code
      point, and equal to the code-point count exactly when `s` stays in the
      Basic Multilingual Plane. */
  function Utf16Length(s: string): (n: nat)
    ensures |s| <= n <= 2 * |s|
    ensures n == |s| <==> forall i :: 0 <= i < |s| ==> s[i] as int < 0x1_0000
  {
    if s == [] then 0 else CodeUnits(s[0]) + Utf16Length(s[1..])
  }

  /** A single character is as long as its code units. */
  lemma Utf16LengthSingle(c: char)
    ensures Utf16Length([c]) == CodeUnits(c)
  {
  }

  /** Length adds up over concatenation; with `Utf16LengthSingle` this fixes
      the length of every string as the sum of its characters' code units. */
  lemma {:induction false} Utf16LengthAppend(a: string, b: string)
    ensures Utf16Length(a + b) == Utf16Length(a) + Utf16Length(b)
    decreases |a|
  {
    if a == [] {
      assert a + b == b;
    } else {
      assert (a + b)[0] == a[0];
      assert (a + b)[1..] == a[1..] + b;
      Utf16LengthAppend(a[1..], b);
    }
  }
}
