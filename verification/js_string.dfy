/** JavaScript's notion of string length. A Dafny `char` is a Unicode scalar
    value, while `String.prototype.length` counts UTF-16 code units. */
module JsString {

  /** Characters above U+FFFF take a surrogate pair, two code units. */
  function CodeUnits(c: char): nat {
    if c as int > 0xFFFF then 2 else 1
  }

  /** `s.length` in JavaScript. */
  function Utf16Length(s: string): (n: nat)
    ensures |s| <= n <= 2 * |s|
    ensures n == 0 <==> s == []
  {
    if s == [] then 0 else CodeUnits(s[0]) + Utf16Length(s[1..])
  }

  /** On text from the Basic Multilingual Plane (ASCII hex ids among it) the
      JavaScript length is the number of characters. */
  lemma {:induction false} BmpUtf16Length(s: string)
    requires forall i :: 0 <= i < |s| ==> s[i] as int <= 0xFFFF
    ensures Utf16Length(s) == |s|
  {
    if s != [] {
      BmpUtf16Length(s[1..]);
    }
  }
}
