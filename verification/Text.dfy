/** Z-character strings: what a packed string means, following sections 3.2 to 3.4 of the
    Z-Machine Standards Document 1.1 as the version 3 interpreter reads them. */
module Text {
  import opened Bytes

  type zchar = x: int | 0 <= x < 32

  const ESCAPE: zchar := 6

  const PUNCTUATION: string := ".,!?_#'\"/\\-:()"

  function CharFrom(first: char, i: nat): char
    requires i < 26 && first as int + i < 0x80
  {
    (first as int + i) as char
  }

  /** The alphabets A0, A1 and A2 one after the other. The first entry of A2 is never printed:
      its z-character is the escape. */
  function AlphabetEntry(i: nat): char
    requires i < 78
  {
    if i < 26 then CharFrom('a', i)
    else if i < 52 then CharFrom('A', i - 26)
    else if i == 52 then '\0'
    else if i == 53 then '\n'
    else if i < 64 then CharFrom('0', i - 54)
    else PUNCTUATION[i - 64]
  }

  // ----- packed strings

  /** The `j`-th of the three z-characters packed in a word. */
  function ZCharOf(code: word, j: nat): zchar
    requires j < 3
  {
    if j == 0 then code / 0x400 % 32 else if j == 1 then code / 32 % 32 else code % 32
  }

  function CodeAt(story: seq<byte>, addr: nat): word
    requires addr + 1 < |story|
  {
    Word(story[addr], story[addr + 1])
  }

  /** A word with its top bit set comes before the end of the story. */
  predicate Terminated(story: seq<byte>, addr: nat)
    decreases |story| - addr
  {
    addr + 1 < |story| && (story[addr] >= 0x80 || Terminated(story, addr + 2))
  }

  /** The number of words of a string. */
  function StringWords(story: seq<byte>, addr: nat): (n: nat)
    requires Terminated(story, addr)
    ensures n >= 1
    decreases |story| - addr
  {
    if story[addr] >= 0x80 then 1 else 1 + StringWords(story, addr + 2)
  }

  /** All z-characters of a string, three a word, up to and including its marked last word. */
  function ZChars(story: seq<byte>, addr: nat): (zs: seq<zchar>)
    requires Terminated(story, addr)
    ensures |zs| == 3 * StringWords(story, addr)
    decreases |story| - addr
  {
    var code := CodeAt(story, addr);
    [ZCharOf(code, 0), ZCharOf(code, 1), ZCharOf(code, 2)]
    + if story[addr] >= 0x80 then [] else ZChars(story, addr + 2)
  }

  /** The bytes a string occupies. */
  function ByteLength(story: seq<byte>, addr: nat): nat
    requires Terminated(story, addr)
  {
    2 * StringWords(story, addr)
  }

  // ----- meaning

  /** What a string stands for: characters; or nothing, because the interpreter dies (an
      abbreviation inside an abbreviation) or reads beyond the story. */
  datatype Meaning = Chars(s: string) | Dies | Runaway

  function Prepend(s: string, m: Meaning): Meaning {
    if m.Chars? then Chars(s + m.s) else m
  }

  function Join(m: Meaning, n: Meaning): Meaning {
    if m.Chars? then Prepend(m.s, n) else m
  }

  /** Where abbreviations come from: the table of a story, or nowhere, inside an abbreviation. */
  datatype Abbreviations = Forbidden | Table(story: seq<byte>, addr: nat)

  /** The text of a ZSCII code: ASCII as it is, 13 a new line, 0 nothing, anything else a question mark. */
  function ZsciiText(code: nat): (s: string)
    ensures |s| <= 1
  {
    if 32 <= code <= 126 then [code as char]
    else if code == 13 then "\n"
    else if code == 0 then ""
    else "?"
  }

  /** Two z-characters as one 10-bit number. */
  function Pair(hi: zchar, lo: zchar): nat {
    32 * hi as int + lo as int
  }

  function AlphabetChar(alphabet: nat, z: zchar): char
    requires alphabet < 3 && 6 <= z
  {
    AlphabetEntry(26 * alphabet + (z - 6))
  }

  /** The text of the z-characters `zs`, the first of them read in `alphabet`. A shift lasts for
      one z-character; an abbreviation or escape cut off by the end of the string means nothing. */
  function Expand(zs: seq<zchar>, alphabet: nat, ab: Abbreviations): Meaning
    requires alphabet < 3
    decreases ab.Table?, 1, |zs|
  {
    if zs == [] then Chars("")
    else
      var z := zs[0];
      if z == 0 then Prepend(" ", Expand(zs[1..], 0, ab))
      else if z <= 3 then
        if |zs| < 2 then Chars("") else Join(Abbreviation(ab, Pair(z - 1, zs[1])), Expand(zs[2..], 0, ab))
      else if z <= 5 then Expand(zs[1..], z - 3, ab)
      else if z == ESCAPE && alphabet == 2 then
        if |zs| < 3 then Chars("") else Prepend(ZsciiText(Pair(zs[1], zs[2])), Expand(zs[3..], 0, ab))
      else Prepend([AlphabetChar(alphabet, z)], Expand(zs[1..], 0, ab))
  }

  /** The text of abbreviation `index`: the string at twice its entry in the table. */
  function Abbreviation(ab: Abbreviations, index: nat): Meaning
    decreases ab.Table?, 0, 0
  {
    match ab
    case Forbidden => Dies
    case Table(story, addr) =>
      var entry := addr + 2 * index;
      if |story| < entry + 2 then Runaway else StringAt(story, 2 * CodeAt(story, entry) as int, Forbidden)
  }

  /** The meaning of the packed string at an address. */
  function StringAt(story: seq<byte>, addr: nat, ab: Abbreviations): Meaning
    decreases ab.Table?, 2, 0
  {
    if Terminated(story, addr) then Expand(ZChars(story, addr), 0, ab) else Runaway
  }
}
