/** Dictionary words: how the tokenizer encodes a typed word, and what decoding gives back. */
module Dictionary {
  import opened Bytes
  import opened Text

  const KEY_ZCHARS: nat := 6
  const ZCHAR_PLACES: nat := 12
  const PAD: zchar := 5
  const SHIFT_A2: zchar := 3
  const TABLE_A2: string := "\n0123456789.,!?_#'\"/\\-:()"

  predicate IsLetter(b: byte) {
    'a' as int <= b <= 'z' as int || 'A' as int <= b <= 'Z' as int
  }

  function LowerCase(b: byte): char {
    if 'A' as int <= b <= 'Z' as int then (b + 32) as char else b as char
  }

  function Lower(word: seq<byte>): string {
    seq(|word|, i requires 0 <= i < |word| => LowerCase(word[i]))
  }

  /** The position of a character in the punctuation table, or the table's length. */
  function IndexInA2(b: byte, from: nat): (i: nat)
    requires from <= |TABLE_A2|
    ensures from <= i <= |TABLE_A2|
    decreases |TABLE_A2| - from
  {
    if from == |TABLE_A2| || TABLE_A2[from] as int == b then from else IndexInA2(b, from + 1)
  }

  /** The z-characters of one typed character: a letter, in either case, is one of alphabet A0;
      punctuation is a shift and a code; any other character is dropped. */
  function CharZChars(b: byte): (zs: seq<zchar>)
    ensures |zs| <= 2
  {
    if 'a' as int <= b <= 'z' as int then [b - 'a' as int + 6]
    else if 'A' as int <= b <= 'Z' as int then [b - 'A' as int + 6]
    else if IndexInA2(b, 0) < |TABLE_A2| then [SHIFT_A2, IndexInA2(b, 0) + 7]
    else []
  }

  function WordZChars(word: seq<byte>): seq<zchar> {
    if word == [] then [] else CharZChars(word[0]) + WordZChars(word[1..])
  }

  /** How many places of its array the encoder has written after the first i characters of a word: it
      stops only between characters, once twelve or more are written. */
  function Places(word: seq<byte>, i: nat): nat
    requires i <= |word|
  {
    if i == 0 then 0
    else
      var before := Places(word, i - 1);
      if before >= ZCHAR_PLACES then before else before + |CharZChars(word[i - 1])|
  }

  /** The encoder writes past the end of its array. */
  predicate Overruns(word: seq<byte>) {
    Places(word, |word|) > ZCHAR_PLACES
  }

  /** The six z-characters of a key: cut off, or padded. */
  function Key(zs: seq<zchar>): (k: seq<zchar>)
    ensures |k| == KEY_ZCHARS
  {
    seq(KEY_ZCHARS, i requires 0 <= i < KEY_ZCHARS => if i < |zs| then zs[i] else PAD)
  }

  function Pack(a: zchar, b: zchar, c: zchar): (w: word)
    ensures w < 0x8000 && ZCharOf(w, 0) == a && ZCharOf(w, 1) == b && ZCharOf(w, 2) == c
  {
    0x400 * a as int + 32 * b as int + c as int
  }

  /** The word three z-characters of a key are packed in. */
  function PackAt(k: seq<zchar>, pos: nat): (w: word)
    requires pos + 2 < |k|
    ensures w < 0x8000
  {
    Pack(k[pos], k[pos + 1], k[pos + 2])
  }

  /** The two words of a key, the second one marked as the last. */
  function EncodedWord(word: seq<byte>): (word, word) {
    var k := Key(WordZChars(word));
    (PackAt(k, 0), PackAt(k, 3) + 0x8000)
  }

  function KeyBytes(word: seq<byte>): (k: seq<byte>)
    ensures |k| == 4
  {
    var (w0, w1) := EncodedWord(word);
    [Hi(w0), Lo(w0), Hi(w1), Lo(w1)]
  }

  // ----- decoding an encoded word

  /** The bytes at `addr` are the key of `word`. */
  ghost predicate HoldsKey(story: seq<byte>, addr: nat, word: seq<byte>) {
    addr + 4 <= |story| && story[addr..addr + 4] == KeyBytes(word)
  }

  /** The end bit is none of the three z-characters. */
  lemma PackedAndMarked(a: zchar, b: zchar, c: zchar)
    ensures var w := Pack(a, b, c) + 0x8000;
      ZCharOf(w, 0) == a && ZCharOf(w, 1) == b && ZCharOf(w, 2) == c
    ensures Hi(Pack(a, b, c)) < 0x80 && Hi(Pack(a, b, c) + 0x8000) >= 0x80
  {
    var w := Pack(a, b, c) + 0x8000;
    Split32(w, 0x400 + 32 * a as int + b as int, c);
    Split32(w / 32, 32 + a as int, b);
    Split32(32 + a as int, 1, a);
    assert w / 0x400 == 32 + a as int by {
      assert w == 0x400 * (32 + a as int) + (32 * b as int + c as int);
    }
  }

  lemma Split32(x: int, q: int, r: int)
    requires x == 32 * q + r && 0 <= r < 32
    ensures x / 32 == q && x % 32 == r
  {
  }

  lemma TwoWords(story: seq<byte>, addr: nat, w0: word, w1: word)
    requires addr + 4 <= |story| && story[addr..addr + 4] == [Hi(w0), Lo(w0), Hi(w1), Lo(w1)]
    ensures CodeAt(story, addr) == w0 && CodeAt(story, addr + 2) == w1
    ensures story[addr] == Hi(w0) && story[addr + 2] == Hi(w1)
  {
    var four := story[addr..addr + 4];
    assert four[0] == story[addr] && four[1] == story[addr + 1] && four[2] == story[addr + 2] && four[3] == story[addr + 3];
  }

  lemma KeyUnpacks(story: seq<byte>, addr: nat, word: seq<byte>)
    requires HoldsKey(story, addr, word)
    ensures Terminated(story, addr) && ZChars(story, addr) == Key(WordZChars(word))
  {
    var (w0, w1) := EncodedWord(word);
    TwoWords(story, addr, w0, w1);
    var k := Key(WordZChars(word));
    PackedAndMarked(k[0], k[1], k[2]);
    PackedAndMarked(k[3], k[4], k[5]);
    TwoWordString(story, addr, k);
  }

  lemma TwoWordString(story: seq<byte>, addr: nat, k: seq<zchar>)
    requires addr + 4 <= |story| && |k| == KEY_ZCHARS
    requires story[addr] < 0x80 && story[addr + 2] >= 0x80
    requires var c := CodeAt(story, addr); [ZCharOf(c, 0), ZCharOf(c, 1), ZCharOf(c, 2)] == k[..3]
    requires var c := CodeAt(story, addr + 2); [ZCharOf(c, 0), ZCharOf(c, 1), ZCharOf(c, 2)] == k[3..]
    ensures Terminated(story, addr) && ZChars(story, addr) == k
  {
    assert Terminated(story, addr + 2);
    assert ZChars(story, addr + 2) == k[3..];
    assert ZChars(story, addr) == k[..3] + k[3..];
  }

  predicate AllLetters(word: seq<byte>) {
    forall i :: 0 <= i < |word| ==> IsLetter(word[i])
  }

  /** The part of a word its key can hold. */
  function Significant(word: seq<byte>): seq<byte> {
    word[..Min(KEY_ZCHARS, |word|)]
  }

  lemma {:induction false} PaddingMeansNothing(zs: seq<zchar>, alphabet: nat, ab: Abbreviations)
    requires alphabet < 3 && forall i :: 0 <= i < |zs| ==> zs[i] == PAD
    ensures Expand(zs, alphabet, ab) == Chars("")
  {
    if zs != [] {
      PaddingMeansNothing(zs[1..], 2, ab);
    }
  }

  lemma LetterZChar(b: byte)
    requires IsLetter(b)
    ensures |CharZChars(b)| == 1 && 6 <= CharZChars(b)[0] && AlphabetChar(0, CharZChars(b)[0]) == LowerCase(b)
  {
  }

  lemma LowerCons(word: seq<byte>)
    requires word != []
    ensures Lower(word) == [LowerCase(word[0])] + Lower(word[1..])
  {
  }

  /** Letters decode to themselves in lower case, and padding adds nothing. */
  lemma {:induction false} LettersDecode(word: seq<byte>, pad: seq<zchar>, ab: Abbreviations)
    requires AllLetters(word) && forall i :: 0 <= i < |pad| ==> pad[i] == PAD
    ensures |WordZChars(word)| == |word| && Expand(WordZChars(word) + pad, 0, ab) == Chars(Lower(word))
  {
    if word == [] {
      assert WordZChars(word) + pad == pad;
      PaddingMeansNothing(pad, 0, ab);
    } else {
      LettersDecode(word[1..], pad, ab);
      LetterZChar(word[0]);
      var z := CharZChars(word[0])[0];
      var rest := WordZChars(word[1..]) + pad;
      assert WordZChars(word) + pad == [z] + rest;
      assert ([z] + rest)[1..] == rest;
      LowerCons(word);
    }
  }

  lemma {:induction false} WordZCharsSplit(a: seq<byte>, b: seq<byte>)
    ensures WordZChars(a + b) == WordZChars(a) + WordZChars(b)
  {
    if a == [] {
      assert a + b == b;
    } else {
      assert (a + b)[1..] == a[1..] + b;
      WordZCharsSplit(a[1..], b);
    }
  }

  /** Decoding the key of `word` gives back the word's first six characters in lower case,
      whatever story it lies in and whatever abbreviations that story has. */
  ghost predicate RoundTrips(word: seq<byte>) {
    forall story, addr, abbrtab | HoldsKey(story, addr, word) ::
      StringAt(story, addr, Table(story, abbrtab)) == Chars(Lower(Significant(word)))
  }

  lemma LetterKey(word: seq<byte>)
    requires AllLetters(Significant(word))
    ensures exists pad :: (forall i :: 0 <= i < |pad| ==> pad[i] == PAD)
                          && Key(WordZChars(word)) == WordZChars(Significant(word)) + pad
  {
    var sig := Significant(word);
    assert word == sig + word[|sig|..];
    WordZCharsSplit(sig, word[|sig|..]);
    LettersDecode(sig, [], Forbidden);
    var pad := seq(KEY_ZCHARS - |sig|, _ => PAD);
    if |sig| < KEY_ZCHARS {
      assert word[|sig|..] == [];
    }
    assert Key(WordZChars(word)) == WordZChars(sig) + pad;
  }

  lemma LettersRoundTrip(word: seq<byte>)
    requires AllLetters(Significant(word))
    ensures RoundTrips(word)
  {
    forall story, addr, abbrtab | HoldsKey(story, addr, word)
      ensures StringAt(story, addr, Table(story, abbrtab)) == Chars(Lower(Significant(word)))
    {
      KeyUnpacks(story, addr, word);
      LetterKey(word);
      var pad :| (forall i :: 0 <= i < |pad| ==> pad[i] == PAD)
                 && Key(WordZChars(word)) == WordZChars(Significant(word)) + pad;
      LettersDecode(Significant(word), pad, Table(story, abbrtab));
    }
  }

  // ----- what goes wrong with other characters

  /** The z-characters the encoder produces are letters, codes of alphabet A2 and its shift 3,
      which the decoder takes for an abbreviation. */
  lemma {:induction false} EncoderOutput(word: seq<byte>)
    ensures forall i :: 0 <= i < |WordZChars(word)| ==> WordZChars(word)[i] == SHIFT_A2 || 6 <= WordZChars(word)[i]
  {
    if word != [] {
      EncoderOutput(word[1..]);
    }
  }

  /** Every abbreviation in the table is the empty text. */
  ghost predicate Silent(ab: Abbreviations) {
    forall index: nat :: index < 96 ==> Abbreviation(ab, index) == Chars("")
  }

  ghost predicate OnlyLowerCase(s: string) {
    forall i :: 0 <= i < |s| ==> 'a' <= s[i] <= 'z'
  }

  /** With silent abbreviations, only the letters of an encoder's output are heard. */
  lemma {:induction false} SilentDecodesLetters(zs: seq<zchar>, alphabet: nat, ab: Abbreviations)
    requires Silent(ab) && (alphabet == 0 || (alphabet == 2 && forall i :: 0 <= i < |zs| ==> zs[i] == PAD))
    requires forall i :: 0 <= i < |zs| ==> zs[i] == SHIFT_A2 || PAD <= zs[i]
    requires forall i, j :: 0 <= i < j < |zs| && zs[i] == PAD ==> zs[j] == PAD
    ensures Expand(zs, alphabet, ab).Chars? && OnlyLowerCase(Expand(zs, alphabet, ab).s)
  {
    if zs == [] {
    } else if zs[0] == SHIFT_A2 {
      if |zs| >= 2 {
        assert Abbreviation(ab, Pair(zs[0] - 1, zs[1])) == Chars("");
        SilentDecodesLetters(zs[2..], 0, ab);
      }
    } else if zs[0] == PAD {
      SilentDecodesLetters(zs[1..], 2, ab);
    } else {
      SilentDecodesLetters(zs[1..], 0, ab);
    }
  }

  /** A story whose abbreviations are all empty and that holds the key of `word` after them. */
  function SilentStory(word: seq<byte>): seq<byte> {
    [0x94, 0xA5] + seq(192, _ => 0) + KeyBytes(word)
  }

  lemma SilentStoryIsSilent(word: seq<byte>)
    ensures Silent(Table(SilentStory(word), 2)) && HoldsKey(SilentStory(word), 194, word)
  {
    var story := SilentStory(word);
    assert story[194..198] == KeyBytes(word);
    assert CodeAt(story, 0) == 0x94A5;
    assert ZChars(story, 0) == [PAD, PAD, PAD];
    PaddingMeansNothing([PAD, PAD, PAD], 0, Forbidden);
    forall index: nat | index < 96 ensures Abbreviation(Table(story, 2), index) == Chars("") {
      assert CodeAt(story, 2 + 2 * index) == 0;
    }
  }

  lemma OthersFail(word: seq<byte>)
    requires !AllLetters(Significant(word))
    ensures !RoundTrips(word)
  {
    var story := SilentStory(word);
    SilentStoryIsSilent(word);
    KeyUnpacks(story, 194, word);
    EncoderOutput(word);
    SilentDecodesLetters(Key(WordZChars(word)), 0, Table(story, 2));
    var text := StringAt(story, 194, Table(story, 2)).s;
    var sig := Significant(word);
    var i :| 0 <= i < |sig| && !IsLetter(sig[i]);
    assert Lower(sig)[i] == LowerCase(sig[i]);
    assert StringAt(story, 194, Table(story, 2)) != Chars(Lower(sig));
  }

  /** Encoding a word and decoding its key gives back its first six characters in lower case, in
      every story, exactly when those characters are all letters. */
  lemma RoundTripExactlyForLetters(word: seq<byte>)
    ensures RoundTrips(word) <==> AllLetters(Significant(word))
  {
    if AllLetters(Significant(word)) {
      LettersRoundTrip(word);
    } else {
      OthersFail(word);
    }
  }

  // ----- the encoder's array

  lemma {:induction false} PlacesAreZChars(word: seq<byte>, i: nat)
    requires i <= |word|
    ensures |WordZChars(word[..i])| < ZCHAR_PLACES ==> Places(word, i) == |WordZChars(word[..i])|
    ensures |WordZChars(word[..i])| >= ZCHAR_PLACES ==> Places(word, i) >= ZCHAR_PLACES
  {
    if i > 0 {
      PlacesAreZChars(word, i - 1);
      NextZChars(word, i - 1);
    }
  }

  lemma NextZChars(word: seq<byte>, i: nat)
    requires i < |word|
    ensures WordZChars(word[..i + 1]) == WordZChars(word[..i]) + CharZChars(word[i])
  {
    assert word[..i + 1] == word[..i] + [word[i]];
    WordZCharsSplit(word[..i], [word[i]]);
    assert WordZChars([word[i]]) == CharZChars(word[i]);
  }

  /** Eleven places are taken when a character of two z-characters comes. */
  ghost predicate BreaksAt(word: seq<byte>, i: nat) {
    i < |word| && |WordZChars(word[..i])| == ZCHAR_PLACES - 1 && |CharZChars(word[i])| == 2
  }

  lemma NextPlaces(word: seq<byte>, i: nat)
    requires i < |word|
    ensures Places(word, i + 1) > ZCHAR_PLACES <==> Places(word, i) > ZCHAR_PLACES || BreaksAt(word, i)
  {
    PlacesAreZChars(word, i);
  }

  /** The array is overrun within the first n characters. */
  ghost predicate BreaksBefore(word: seq<byte>, n: nat) {
    exists i :: 0 <= i < n && BreaksAt(word, i)
  }

  lemma BreaksBeforeNext(word: seq<byte>, n: nat)
    ensures BreaksBefore(word, n + 1) <==> BreaksBefore(word, n) || BreaksAt(word, n)
  {
  }

  lemma {:induction false} OverrunBreaks(word: seq<byte>, n: nat)
    requires n <= |word|
    ensures Places(word, n) > ZCHAR_PLACES <==> BreaksBefore(word, n)
  {
    if n > 0 {
      OverrunBreaks(word, n - 1);
      NextPlaces(word, n - 1);
      BreaksBeforeNext(word, n - 1);
    }
  }

  /** The array is overrun exactly when some character of two z-characters comes while eleven of its
      twelve places are taken. */
  lemma OverrunsExactly(word: seq<byte>)
    ensures Overruns(word) <==> exists i :: 0 <= i < |word| && BreaksAt(word, i)
  {
    OverrunBreaks(word, |word|);
  }

  /** For example by eleven letters and a digit. */
  lemma OverrunHappens(word: seq<byte>)
    requires |word| == 12 && AllLetters(word[..11]) && word[11] == '1' as int
    ensures Overruns(word)
  {
    LettersZChars(word[..11]);
    assert BreaksAt(word, 11);
    OverrunsExactly(word);
  }

  lemma {:induction false} LettersZChars(word: seq<byte>)
    requires AllLetters(word)
    ensures |WordZChars(word)| == |word|
  {
    if word != [] {
      LettersZChars(word[1..]);
    }
  }
}
