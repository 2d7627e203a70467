/** Bytes of a std::string and the case folding applied to every token
    (main.cpp, `tolower`). Character classes are those of the C locale. */
module Text {

  /** One byte of a std::string, as `tolower` reads it: an unsigned char. */
  type Byte = b: int | 0 <= b < 256

  type Bytes = seq<Byte>

  /** `isspace` in the C locale: space, '\t', '\n', '\v', '\f' and '\r'. */
  predicate IsSpace(b: Byte) {
    b == 32 || 9 <= b <= 13
  }

  /** An ASCII capital letter, 'A' .. 'Z'. */
  predicate IsUpper(b: Byte) {
    65 <= b <= 90
  }

  /** `std::tolower` of one byte in the C locale. */
  function ToLowerByte(b: Byte): (r: Byte)
    ensures !IsUpper(r)
    ensures r == b <==> !IsUpper(b)
    ensures IsUpper(b) ==> r == b + ('a' as int - 'A' as int)
  {
    if IsUpper(b) then b + 32 else b
  }

  /** `tolower(str)`: the byte-wise `std::transform` of `str` into a fresh string. */
  function ToLower(s: Bytes): (r: Bytes)
    ensures |r| == |s|
    ensures forall i :: 0 <= i < |s| ==> r[i] == ToLowerByte(s[i])
  {
    if s == [] then [] else [ToLowerByte(s[0])] + ToLower(s[1..])
  }

  /** A string with no capital letter. */
  predicate IsLower(s: Bytes) {
    forall i :: 0 <= i < |s| ==> !IsUpper(s[i])
  }

  /** The result of `tolower` contains no capital letter, and folding such a
      string again changes nothing: `tolower` is idempotent. */
  lemma ToLowerIdempotent(s: Bytes)
    ensures IsLower(ToLower(s))
    ensures ToLower(ToLower(s)) == ToLower(s)
  {
  }

  /** A string without capitals is its own case folding. */
  lemma LowerIsFixed(s: Bytes)
    requires IsLower(s)
    ensures ToLower(s) == s
  {
  }

  /** Case folding works byte by byte, so it distributes over concatenation. */
  lemma ToLowerConcat(a: Bytes, b: Bytes)
    ensures ToLower(a + b) == ToLower(a) + ToLower(b)
  {
  }
}
