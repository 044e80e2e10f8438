/** JavaScript string length. `s.length` counts UTF-16 code units: a
    character outside the Basic Multilingual Plane (U+10000 and above) is a
    surrogate pair and counts twice, every other character once. Dafny's
    `|s|` counts characters, so the length guards of the controllers use
    `Utf16Length` instead. */
module JsString {

  /** The number of UTF-16 code units that encode `c`. */
  function CodeUnits(c: char): (n: nat)
    ensures n == 1 || n == 2
    ensures n == 2 <==> c as int >= 0x1_0000
  {
    if c as int >= 0x1_0000 then 2 else 1
  }

  /** `s.length`. */
  function Utf16Length(s: string): (n: nat)
    ensures |s| <= n <= 2 * |s|
    decreases |s|
  {
    if s == [] then 0 else Utf16Length(s[..|s| - 1]) + CodeUnits(s[|s| - 1])
  }

  predicate InBmp(s: string)
  {
    forall i :: 0 <= i < |s| ==> s[i] as int < 0x1_0000
  }

  /** Without characters beyond the Basic Multilingual Plane, the JavaScript
      length is the number of characters. */
  lemma {:induction false} BmpLength(s: string)
    requires InBmp(s)
    ensures Utf16Length(s) == |s|
    decreases |s|
  {
    if s != [] {
      BmpLength(s[..|s| - 1]);
    }
  }

  /** Three emoji make a string of JavaScript length 6. */
  lemma EmojiLength()
    ensures Utf16Length("\U{1F600}\U{1F600}\U{1F600}") == 6
  {
    var s := "\U{1F600}\U{1F600}\U{1F600}";
    assert s[..2][..1] == "\U{1F600}";
  }
}
