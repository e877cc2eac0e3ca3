/** The profile placeholder: a round badge showing the upper-cased first
    character of a name, coloured by that character's code. */
module Avatar {
  import opened Js

  /** The colours for the char codes 65 (`A`) to 90 (`Z`), in that order. */
  const Colors: seq<string> := [
    "#15008f", "#00478f", "#8f000e", "#8f6b00", "#0a8f00", "#8f5f00",
    "#8f2400", "#5f008f", "#8f0081", "#01025c", "#5c2401", "#475c01",
    "#015c2e", "#5c0147", "#5c4b01", "#21015c", "#5c0128", "#01425c",
    "#54015c", "#57015c", "#195c01", "#5c0101", "#01125c", "#015c39",
    "#5c2501", "#010a5c"
  ]

  predicate IsAsciiUpper(c: char) { 'A' <= c <= 'Z' }
  predicate IsAsciiLower(c: char) { 'a' <= c <= 'z' }

  /** `toUpperCase()` on one character, for ASCII letters. */
  function ToUpper(c: char): (u: char)
    ensures IsAsciiLower(c) ==> IsAsciiUpper(u) && u as int == c as int - 32
    ensures !IsAsciiLower(c) ==> u == c
  {
    if IsAsciiLower(c) then (c as int - 32) as char else c
  }

  /** `colores[code]`: undefined outside 65..90. */
  function ColorFor(code: int): (r: Option<string>)
    ensures r.Some? <==> 65 <= code <= 90
    ensures r.Some? ==> r.value == Colors[code - 65]
  {
    if 65 <= code <= 90 then Some(Colors[code - 65]) else None
  }

  /** What the badge shows: its letter and its background colour. */
  datatype Badge = Badge(letter: char, backgroundColor: Option<string>)

  /** The badge for a name; `name[0].toUpperCase()` throws on an empty name. */
  function Placeholder(name: string): (r: Completion<Badge>)
    ensures r.Thrown? <==> name == []
    ensures r.Normal? ==> r.value.letter == ToUpper(name[0])
  {
    if name == [] then Thrown
    else
      var letter := ToUpper(name[0]);
      Normal(Badge(letter, ColorFor(letter as int)))
  }

  /** A name starting with an ASCII letter gets the colour of that letter's
      upper-case form, whichever case it is written in. */
  lemma LetterGetsItsColor(name: string)
    requires name != [] && (IsAsciiUpper(name[0]) || IsAsciiLower(name[0]))
    ensures var upper := if IsAsciiLower(name[0]) then (name[0] as int - 32) else name[0] as int;
      Placeholder(name).value.backgroundColor == Some(Colors[upper - 65])
  {
  }

  /** A name whose first character is not an ASCII letter gets no colour. */
  lemma NonLetterGetsNoColor(name: string)
    requires name != [] && !IsAsciiUpper(name[0]) && !IsAsciiLower(name[0])
    ensures Placeholder(name).value.backgroundColor == None
  {
  }

  /** Names differing only in the case of their first letter get the same
      badge. */
  lemma CaseDoesNotMatter(name: string)
    requires name != [] && IsAsciiLower(name[0])
    ensures Placeholder(name) == Placeholder([(name[0] as int - 32) as char] + name[1..])
  {
  }

  /** The table has 26 entries, one per letter, and no two letters share a colour. */
  lemma ColorsDistinct()
    ensures |Colors| == 26
    ensures forall i, j | 0 <= i < j < |Colors| :: Colors[i] != Colors[j]
  {
  }
}
