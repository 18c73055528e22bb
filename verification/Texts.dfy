/** Text as JavaScript has it. */
module Texts {

  /** A JavaScript string is its UTF-16 code units. */
  type Unit = u: int | 0 <= u < 0x10000
  type Text = seq<Unit>

  /** A literal of printable ASCII; any other character would read as a space. */
  function Literal(s: string): (t: Text)
    ensures |t| == |s|
    ensures forall i :: 0 <= i < |s| ==> 32 <= t[i] < 127 && (' ' <= s[i] <= '~' ==> t[i] == s[i] as int)
  {
    seq(|s|, i requires 0 <= i < |s| => if ' ' <= s[i] <= '~' then s[i] as int else 32)
  }

  predicate Digit(u: Unit) {
    48 <= u < 58
  }

  /** The digits `t` begins with, as a number. */
  function LeadingNumber(t: Text, value: nat := 0): nat {
    if t != [] && Digit(t[0]) then LeadingNumber(t[1..], value * 10 + (t[0] - 48)) else value
  }

  predicate AllDigits(t: Text) {
    t != [] && forall i :: 0 <= i < |t| ==> Digit(t[i])
  }

  /** JavaScript's white space: what `trim` and `\s` take. */
  predicate Space(u: Unit) {
    9 <= u <= 13 || u == 32 || u == 0xA0 || u == 0xFEFF || u == 0x1680 || 0x2000 <= u <= 0x200A ||
    u == 0x2028 || u == 0x2029 || u == 0x202F || u == 0x205F || u == 0x3000
  }

  function SkipSpace(t: Text): Text {
    if t != [] && Space(t[0]) then SkipSpace(t[1..]) else t
  }

  function TrimEnd(t: Text): Text {
    if t != [] && Space(t[|t| - 1]) then TrimEnd(t[..|t| - 1]) else t
  }

  function Trim(t: Text): Text {
    SkipSpace(TrimEnd(t))
  }
}
