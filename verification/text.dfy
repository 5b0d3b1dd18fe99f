/** String operations the engines borrow from Python's `str`. */
module Text {

  /** Lower-case mapping of one character for the Basic Latin and Latin-1 upper-case letters. */
  function LowerChar(ch: char): (r: char)
    ensures 'A' <= ch <= 'Z' ==> r as int == ch as int + 32
    ensures !IsUpper(ch) ==> r == ch
    ensures !IsUpper(r)
  {
    if IsUpper(ch) then (ch as int + 32) as char else ch
  }

  /** 'A'..'Z' and 'À'..'Þ' except the multiplication sign '×'. */
  predicate IsUpper(ch: char) {
    ('A' <= ch <= 'Z') || ('À' <= ch <= 'Þ' && ch != '×')
  }

  /** Python's `s.lower()` on the letters `LowerChar` covers. */
  function Lower(s: string): (r: string)
    ensures |r| == |s|
    ensures forall i :: 0 <= i < |s| ==> r[i] == LowerChar(s[i])
  {
    if |s| == 0 then "" else [LowerChar(s[0])] + Lower(s[1..])
  }

  /** Lower-casing twice changes nothing more than lower-casing once. */
  lemma LowerIdempotent(s: string)
    ensures Lower(Lower(s)) == Lower(s)
  {
    assert forall i :: 0 <= i < |s| ==> Lower(Lower(s))[i] == Lower(s)[i];
  }

  /** Case-insensitive equality as `filter_cars_by_criteria` writes it: `a.lower() == b.lower()`. */
  predicate EqualsIgnoringCase(a: string, b: string) {
    Lower(a) == Lower(b)
  }

  /** Python's `t in s` on strings: `t` occurs in `s` as a contiguous piece. */
  predicate HasSubstring(s: string, t: string) {
    t <= s || (|s| > 0 && HasSubstring(s[1..], t))
  }

  /** A string shorter than `t` cannot contain it. */
  lemma {:induction false} ShortLacksSubstring(s: string, t: string)
    requires |s| < |t|
    ensures !HasSubstring(s, t)
  {
    if |s| > 0 {
      ShortLacksSubstring(s[1..], t);
    }
  }

  /** Python's `sep.join(parts)`. */
  function Join(sep: string, parts: seq<string>): (r: string)
    ensures |parts| == 1 ==> r == parts[0]
    ensures |parts| == 0 ==> r == ""
  {
    if |parts| == 0 then ""
    else if |parts| == 1 then parts[0]
    else parts[0] + sep + Join(sep, parts[1..])
  }
}
