/**
 * The character classes the tokenizer and the extractors consult.
 *
 * `char::is_whitespace` is small and is written out exactly. The two large
 * Unicode tables behind `char::is_alphabetic` and `char::is_numeric` are
 * not: they are a parameter, `Tables`, and every property proved here holds
 * for every pair of tables that agrees with Rust on ASCII and keeps clear of
 * the whitespace characters, as the real Unicode tables do.
 */
module Unicode {

  /** `char::is_whitespace`: the Unicode White_Space property. */
  predicate IsWhitespace(c: char) {
    || ('\U{9}' <= c <= '\U{D}')
    || c == ' '
    || c == '\U{85}'
    || c == '\U{A0}'
    || c == '\U{1680}'
    || ('\U{2000}' <= c <= '\U{200A}')
    || c == '\U{2028}'
    || c == '\U{2029}'
    || c == '\U{202F}'
    || c == '\U{205F}'
    || c == '\U{3000}'
  }

  predicate IsAsciiUpper(c: char) { 'A' <= c <= 'Z' }

  predicate IsAsciiLetter(c: char) { 'A' <= c <= 'Z' || 'a' <= c <= 'z' }

  predicate IsAsciiDigit(c: char) { '0' <= c <= '9' }

  predicate AllWhitespace(s: string) {
    forall i :: 0 <= i < |s| ==> IsWhitespace(s[i])
  }

  predicate NoWhitespace(s: string) {
    forall i :: 0 <= i < |s| ==> !IsWhitespace(s[i])
  }

  /** The Unicode Alphabetic and Numeric tables. */
  datatype Tables = Tables(alphabetic: char -> bool, numeric: char -> bool) {

    /** `char::is_alphanumeric` is defined in Rust's std as alphabetic or numeric. */
    predicate IsAlphanumeric(c: char) {
      alphabetic(c) || numeric(c)
    }

    /** What the model relies on: exact on ASCII, disjoint from whitespace. */
    ghost predicate Valid() {
      && (forall c :: IsWhitespace(c) ==> !alphabetic(c) && !numeric(c))
      && (forall c :: c < '\U{80}' ==> (alphabetic(c) <==> IsAsciiLetter(c)))
      && (forall c :: c < '\U{80}' ==> (numeric(c) <==> IsAsciiDigit(c)))
    }
  }

  /** `char::is_alphanumeric` as a value, for `chop_while`. */
  function Alphanumeric(u: Tables): char -> bool {
    c => u.IsAlphanumeric(c)
  }

  /** `char::to_ascii_lowercase`: only 'A'..'Z' change. */
  function ToAsciiLowercase(c: char): (r: char)
    ensures IsAsciiUpper(c) ==> 'a' <= r <= 'z' && r as int == c as int + 32
    ensures !IsAsciiUpper(c) ==> r == c
  {
    if IsAsciiUpper(c) then (c as int + 32) as char else c
  }

  /** `str::to_ascii_lowercase`, and the per-char map of a token. */
  function AsciiLowercase(s: string): (r: string)
    ensures |r| == |s|
    ensures forall i :: 0 <= i < |s| ==> r[i] == ToAsciiLowercase(s[i])
  {
    seq(|s|, i requires 0 <= i < |s| => ToAsciiLowercase(s[i]))
  }

  lemma AsciiLowercaseIdempotent(s: string)
    ensures AsciiLowercase(AsciiLowercase(s)) == AsciiLowercase(s)
  {
  }
}
