/** Tests on strings that several parts of the program share. A string is a sequence of code units. */
module Text {

  /** Lower case on ASCII. The Kelvin sign is the one letter outside ASCII whose lower case is an ASCII letter. */
  function LowerChar(c: char): char {
    if 'A' <= c <= 'Z' then (c as int + 32) as char else if c == '\U{212A}' then 'k' else c
  }

  function Lower(s: string): string {
    seq(|s|, i requires 0 <= i < |s| => LowerChar(s[i]))
  }

  /** `s.includes(t)`. */
  predicate Contains(s: string, t: string) {
    exists i | 0 <= i <= |s| :: t <= s[i..]
  }

  /** A text holds what stands in its middle, and in lower case the lower case of it. */
  lemma Holds(before: string, middle: string, after: string)
    ensures Contains(before + middle + after, middle)
    ensures Contains(Lower(before + middle + after), Lower(middle))
  {
    var s := before + middle + after;
    assert middle <= s[|before|..];
    assert Lower(middle) <= Lower(s)[|before|..];
  }

  predicate WordChar(c: char) {
    'a' <= c <= 'z' || 'A' <= c <= 'Z' || '0' <= c <= '9' || c == '_' || c == '-'
  }

  predicate UuidChar(c: char) {
    'a' <= c <= 'f' || 'A' <= c <= 'F' || '0' <= c <= '9' || c == '-'
  }

  /** `/^[a-f0-9-]{36}$/i`. */
  predicate IsUuidLike(s: string) {
    |s| == 36 && forall i | 0 <= i < |s| :: UuidChar(s[i])
  }
}
