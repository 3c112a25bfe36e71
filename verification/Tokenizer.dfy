/** Splitting a typed line into words and writing the parse buffer the game reads. */
module Tokenizer {
  import opened Bytes
  import opened Text
  import opened Dictionary

  // ----- the words of a line

  predicate IsSep(b: byte, seps: seq<byte>) {
    b == ' ' as int || b == 0 || b in seps
  }

  /** Which characters of a line are separators. */
  function Cuts(line: seq<byte>, seps: seq<byte>): (cuts: seq<bool>)
    ensures |cuts| == |line|
  {
    seq(|line|, i requires 0 <= i < |line| => IsSep(line[i], seps))
  }

  /** A word of a line: the characters from `start` up to `end`. */
  datatype Field = Field(start: nat, end: nat)

  function WordEnd(cuts: seq<bool>, start: nat): (e: nat)
    requires start <= |cuts|
    ensures start <= e <= |cuts|
    decreases |cuts| - start
  {
    if start == |cuts| || cuts[start] then start else WordEnd(cuts, start + 1)
  }

  /** The line from `start` on cut at every separator; fields may be empty. */
  function Fields(cuts: seq<bool>, start: nat): (fs: seq<Field>)
    requires start <= |cuts|
    ensures fs != []
    decreases |cuts| - start
  {
    var e := WordEnd(cuts, start);
    [Field(start, e)] + if e == |cuts| then [] else Fields(cuts, e + 1)
  }

  /** The leading words, up to the first empty one and at most `max`. */
  function Leading(fs: seq<Field>, max: nat): seq<Field> {
    if fs == [] || max == 0 || fs[0].start == fs[0].end then [] else [fs[0]] + Leading(fs[1..], max - 1)
  }

  lemma {:induction false} WordHasNoSeparator(cuts: seq<bool>, start: nat)
    requires start <= |cuts|
    ensures var e := WordEnd(cuts, start);
      (forall k :: start <= k < e ==> !cuts[k]) && (e < |cuts| ==> cuts[e])
    decreases |cuts| - start
  {
    if start < |cuts| && !cuts[start] {
      WordHasNoSeparator(cuts, start + 1);
    }
  }

  /** Each field is a part of the line without separators. */
  lemma {:induction false} FieldsHaveNoSeparator(cuts: seq<bool>, start: nat, i: nat)
    requires start <= |cuts| && i < |Fields(cuts, start)|
    ensures var f := Fields(cuts, start)[i];
      f.start <= f.end <= |cuts| && forall k :: f.start <= k < f.end ==> !cuts[k]
    decreases |cuts| - start
  {
    WordHasNoSeparator(cuts, start);
    if i > 0 {
      FieldsHaveNoSeparator(cuts, WordEnd(cuts, start) + 1, i - 1);
    }
  }

  /** The first field begins where the cut begins, the last one ends with the line, and exactly
      one separator lies between neighbours: fields and separators together are the line. */
  lemma {:induction false} FieldsPartitionLine(cuts: seq<bool>, start: nat, i: nat)
    requires start <= |cuts| && i < |Fields(cuts, start)|
    ensures var fs := Fields(cuts, start);
      && (i == 0 ==> fs[i].start == start)
      && (i == |fs| - 1 ==> fs[i].end == |cuts|)
      && (i < |fs| - 1 ==>
            fs[i].end < |cuts| && cuts[fs[i].end] && fs[i + 1].start == fs[i].end + 1)
    decreases |cuts| - start
  {
    var e := WordEnd(cuts, start);
    WordHasNoSeparator(cuts, start);
    var fs := Fields(cuts, start);
    if e < |cuts| {
      var rest := Fields(cuts, e + 1);
      assert fs == [Field(start, e)] + rest;
      if i == 0 {
        FieldsPartitionLine(cuts, e + 1, 0);
        assert fs[1] == rest[0];
      } else {
        FieldsPartitionLine(cuts, e + 1, i - 1);
        assert fs[i] == rest[i - 1] && (i < |fs| - 1 ==> fs[i + 1] == rest[i]);
      }
    }
  }

  /** The leading words are the first fields in order, none empty; they stop early only at an
      empty field or the end of the line. */
  lemma {:induction false} LeadingAreFirstFields(fs: seq<Field>, max: nat)
    ensures var ws := Leading(fs, max);
      && ws <= fs && |ws| <= max
      && (forall i :: 0 <= i < |ws| ==> ws[i].start != ws[i].end)
      && (|ws| < max && |ws| < |fs| ==> fs[|ws|].start == fs[|ws|].end)
  {
    if !(fs == [] || max == 0 || fs[0].start == fs[0].end) {
      LeadingAreFirstFields(fs[1..], max - 1);
      assert fs == [fs[0]] + fs[1..];
    }
  }

  // ----- the dictionary

  /** The dictionary's header lies in the story: separators, entry length, number of entries. */
  predicate HasHeader(story: seq<byte>, dict: nat) {
    dict < |story| && dict + 4 + story[dict] <= |story|
  }

  function Separators(story: seq<byte>, dict: nat): seq<byte>
    requires HasHeader(story, dict)
  {
    story[dict + 1..dict + 1 + story[dict]]
  }

  function EntryCount(story: seq<byte>, dict: nat): nat
    requires HasHeader(story, dict)
  {
    Word(story[dict + 2 + story[dict]], story[dict + 3 + story[dict]])
  }

  function FirstEntry(story: seq<byte>, dict: nat): nat
    requires HasHeader(story, dict)
  {
    dict + 4 + story[dict]
  }

  function EntryLength(story: seq<byte>, dict: nat): byte
    requires HasHeader(story, dict)
  {
    story[dict + 1 + story[dict]]
  }

  /** Entries follow one another. */
  function EntryAddress(story: seq<byte>, dict: nat, i: nat): (a: nat)
    requires HasHeader(story, dict)
    ensures a >= FirstEntry(story, dict)
  {
    if i == 0 then FirstEntry(story, dict) else EntryAddress(story, dict, i - 1) + EntryLength(story, dict)
  }

  /** Header and the keys of all entries lie in the story. */
  predicate HasDictionary(story: seq<byte>, dict: nat) {
    && HasHeader(story, dict)
    && forall i :: 0 <= i < EntryCount(story, dict) ==> EntryAddress(story, dict, i) + 4 <= |story|
  }

  function EntryKey(story: seq<byte>, dict: nat, i: nat): seq<byte>
    requires HasDictionary(story, dict) && i < EntryCount(story, dict)
  {
    story[EntryAddress(story, dict, i)..EntryAddress(story, dict, i) + 4]
  }

  /** The first entry from `i` on with the given key, or the number of entries. */
  function FindEntry(story: seq<byte>, dict: nat, key: seq<byte>, i: nat): (r: nat)
    requires HasDictionary(story, dict) && i <= EntryCount(story, dict)
    ensures i <= r <= EntryCount(story, dict)
    ensures r < EntryCount(story, dict) ==> EntryKey(story, dict, r) == key
    ensures forall j :: i <= j < r ==> EntryKey(story, dict, j) != key
    decreases EntryCount(story, dict) - i
  {
    if i == EntryCount(story, dict) || EntryKey(story, dict, i) == key then i else FindEntry(story, dict, key, i + 1)
  }

  /** The address the parse buffer records for a key: its dictionary entry, as 16 bits, or 0. */
  function LookupKey(story: seq<byte>, dict: nat, key: seq<byte>): word
    requires HasDictionary(story, dict)
  {
    var i := FindEntry(story, dict, key, 0);
    if i == EntryCount(story, dict) then 0 else ToWord(EntryAddress(story, dict, i))
  }

  function Lookup(story: seq<byte>, dict: nat, word: seq<byte>): word
    requires HasDictionary(story, dict)
  {
    LookupKey(story, dict, KeyBytes(word))
  }

  /** No byte of the dictionary lies in `from..to`. */
  ghost predicate DictionaryOutside(story: seq<byte>, dict: nat, from: nat, to: nat)
    requires HasDictionary(story, dict)
  {
    || to <= dict
    || (FirstEntry(story, dict) <= from
        && forall i :: 0 <= i < EntryCount(story, dict) ==> EntryAddress(story, dict, i) + 4 <= from)
  }

  ghost predicate SameOutside(a: seq<byte>, b: seq<byte>, from: nat, to: nat) {
    |a| == |b| && forall i :: 0 <= i < |a| && !(from <= i < to) ==> a[i] == b[i]
  }

  lemma HeaderUnchanged(a: seq<byte>, b: seq<byte>, dict: nat, from: nat, to: nat)
    requires HasDictionary(a, dict) && DictionaryOutside(a, dict, from, to) && SameOutside(a, b, from, to)
    ensures HasHeader(b, dict)
    ensures Separators(b, dict) == Separators(a, dict) && EntryCount(b, dict) == EntryCount(a, dict)
    ensures FirstEntry(b, dict) == FirstEntry(a, dict) && EntryLength(b, dict) == EntryLength(a, dict)
  {
    assert a[dict] == b[dict];
    SliceUnchanged(a, b, from, to, dict + 1, dict + 4 + a[dict]);
    SliceUnchanged(a, b, from, to, dict + 1, dict + 1 + a[dict]);
  }

  lemma {:induction false} AddressUnchanged(a: seq<byte>, b: seq<byte>, dict: nat, i: nat)
    requires HasHeader(a, dict) && HasHeader(b, dict)
    requires FirstEntry(b, dict) == FirstEntry(a, dict) && EntryLength(b, dict) == EntryLength(a, dict)
    ensures EntryAddress(b, dict, i) == EntryAddress(a, dict, i)
  {
    if i > 0 {
      AddressUnchanged(a, b, dict, i - 1);
    }
  }

  lemma SliceUnchanged(a: seq<byte>, b: seq<byte>, from: nat, to: nat, i: nat, j: nat)
    requires SameOutside(a, b, from, to) && i <= j <= |a| && (to <= i || j <= from)
    ensures a[i..j] == b[i..j]
  {
  }

  lemma KeyUnchanged(a: seq<byte>, b: seq<byte>, dict: nat, from: nat, to: nat, i: nat)
    requires HasDictionary(a, dict) && DictionaryOutside(a, dict, from, to) && SameOutside(a, b, from, to)
    requires HasDictionary(b, dict) && EntryCount(b, dict) == EntryCount(a, dict) && i < EntryCount(a, dict)
    requires EntryAddress(b, dict, i) == EntryAddress(a, dict, i)
    ensures EntryKey(b, dict, i) == EntryKey(a, dict, i)
  {
    var e := EntryAddress(a, dict, i);
    SliceUnchanged(a, b, from, to, e, e + 4);
  }

  lemma {:induction false} FindUnchanged(a: seq<byte>, b: seq<byte>, dict: nat, key: seq<byte>, i: nat)
    requires HasDictionary(a, dict) && HasDictionary(b, dict) && EntryCount(b, dict) == EntryCount(a, dict)
    requires forall j :: 0 <= j < EntryCount(a, dict) ==> EntryKey(b, dict, j) == EntryKey(a, dict, j)
    requires i <= EntryCount(a, dict)
    ensures FindEntry(b, dict, key, i) == FindEntry(a, dict, key, i)
    decreases EntryCount(a, dict) - i
  {
    if i < EntryCount(a, dict) {
      FindUnchanged(a, b, dict, key, i + 1);
    }
  }

  /** Writing outside the dictionary leaves every lookup as it was. */
  lemma DictionaryUnchanged(a: seq<byte>, b: seq<byte>, dict: nat, from: nat, to: nat)
    requires HasDictionary(a, dict) && DictionaryOutside(a, dict, from, to) && SameOutside(a, b, from, to)
    ensures HasDictionary(b, dict) && Separators(b, dict) == Separators(a, dict)
    ensures forall word :: Lookup(b, dict, word) == Lookup(a, dict, word)
  {
    HeaderUnchanged(a, b, dict, from, to);
    forall j: nat ensures EntryAddress(b, dict, j) == EntryAddress(a, dict, j) {
      AddressUnchanged(a, b, dict, j);
    }
    forall j | 0 <= j < EntryCount(a, dict) ensures EntryKey(b, dict, j) == EntryKey(a, dict, j) {
      KeyUnchanged(a, b, dict, from, to, j);
    }
    forall word ensures Lookup(b, dict, word) == Lookup(a, dict, word) {
      FindUnchanged(a, b, dict, KeyBytes(word), 0);
    }
  }

  // ----- the parse buffer

  /** The four bytes recorded for a word: dictionary address, length, position in the text buffer. */
  function Record(story: seq<byte>, dict: nat, line: seq<byte>, f: Field): (r: seq<byte>)
    requires HasDictionary(story, dict) && f.start <= f.end <= |line| <= 255 && f.start < 255
    ensures |r| == 4
  {
    RecordOf(Lookup(story, dict, line[f.start..f.end]), f.end - f.start, f.start + 1)
  }

  function RecordOf(dictaddr: word, len: byte, position: byte): (r: seq<byte>)
    ensures |r| == 4
  {
    [Hi(dictaddr), Lo(dictaddr), len, position]
  }

  predicate FieldsIn(fs: seq<Field>, n: nat) {
    forall i :: 0 <= i < |fs| ==> fs[i].start < fs[i].end <= n
  }

  function Records(story: seq<byte>, dict: nat, line: seq<byte>, fs: seq<Field>): (r: seq<byte>)
    requires HasDictionary(story, dict) && |line| <= 255 && FieldsIn(fs, |line|)
    ensures |r| == 4 * |fs|
  {
    if fs == [] then []
    else Records(story, dict, line, fs[..|fs| - 1]) + Record(story, dict, line, fs[|fs| - 1])
  }

  // ----- the tokenizer

  method IsSeparator(story: array<byte>, dict: nat, ch: byte) returns (isSep: bool)
    requires HasHeader(story[..], dict)
    ensures isSep <==> IsSep(ch, Separators(story[..], dict))
  {
    if ch == ' ' as int || ch == 0 {
      return true;
    }
    ghost var seps := Separators(story[..], dict);
    var numseps := story[dict];
    var i := 0;
    while i < numseps
      invariant i <= numseps && ch !in seps[..i]
    {
      assert seps[i] == story[dict + 1 + i];
      if ch == story[dict + 1 + i] {
        return true;
      }
      i := i + 1;
    }
    assert seps[..i] == seps;
    return false;
  }

  /** Put the z-characters of one typed character into the array from `at` on. */
  method AddZChars(zchars: array<zchar>, at: nat, ch: byte) returns (next: nat)
    requires at + |CharZChars(ch)| <= zchars.Length
    modifies zchars
    ensures next == at + |CharZChars(ch)|
    ensures zchars[..next] == old(zchars[..at]) + CharZChars(ch)
  {
    next := at;
    if 'a' as int <= ch <= 'z' as int {
      zchars[next] := ch - 'a' as int + 6;
      next := next + 1;
    } else if 'A' as int <= ch <= 'Z' as int {
      zchars[next] := ch - 'A' as int + 6;
      next := next + 1;
    } else {
      var i := IndexInA2(ch, 0);
      if i < |TABLE_A2| {
        zchars[next], zchars[next + 1] := 3, i + 1 + 6;
        next := next + 2;
      }
    }
  }

  /** The same for character number i of a word that does not overrun the array. */
  method AddNext(zchars: array<zchar>, at: nat, ch: byte, ghost word: seq<byte>, ghost i: nat) returns (next: nat)
    requires i < |word| && ch == word[i] && !Overruns(word) && at == Places(word, i) < zchars.Length == ZCHAR_PLACES
    requires zchars[..at] == WordZChars(word[..i])
    modifies zchars
    ensures next == Places(word, i + 1) <= zchars.Length && zchars[..next] == WordZChars(word[..i + 1])
  {
    RoomForNext(word, i);
    NextZChars(word, i);
    next := AddZChars(zchars, at, ch);
  }

  /** The z-characters of the `len` characters at `from`, in an array of twelve; the loop stops once the
      array is full. */
  method TokenZChars(story: array<byte>, from: nat, len: nat) returns (zchars: array<zchar>, n: nat)
    requires from + len <= story.Length && !Overruns(story[from..from + len])
    ensures fresh(zchars) && n <= zchars.Length
    ensures Key(zchars[..n]) == Key(WordZChars(story[from..from + len]))
  {
    ghost var word := story[from..from + len];
    zchars := new zchar[12];
    n := 0;
    var i := 0;
    while i < len && n < 12
      invariant i <= len && n == Places(word, i) <= 12
      invariant zchars[..n] == WordZChars(word[..i])
    {
      n := AddNext(zchars, n, story[from + i], word, i);
      i := i + 1;
    }
    EnoughZChars(word, i);
  }

  /** A word that does not overrun the array has room for each of its characters in turn. */
  lemma RoomForNext(word: seq<byte>, i: nat)
    requires i < |word| && !Overruns(word) && Places(word, i) < ZCHAR_PLACES
    ensures Places(word, i) + |CharZChars(word[i])| == Places(word, i + 1) <= ZCHAR_PLACES
  {
    PlacesGrow(word, i + 1, |word|);
  }

  lemma {:induction false} PlacesGrow(word: seq<byte>, i: nat, n: nat)
    requires i <= n <= |word|
    ensures Places(word, i) <= Places(word, n)
    decreases n
  {
    if i < n {
      PlacesGrow(word, i, n - 1);
    }
  }

  lemma EnoughZChars(word: seq<byte>, i: nat)
    requires i <= |word| && (i == |word| || |WordZChars(word[..i])| >= KEY_ZCHARS)
    ensures Key(WordZChars(word[..i])) == Key(WordZChars(word))
  {
    if i == |word| {
      assert word[..i] == word;
    } else {
      assert word == word[..i] + word[i..];
      WordZCharsSplit(word[..i], word[i..]);
    }
  }

  /** The z-character at `pos`, or the padding. */
  method ZCharOrPad(zchars: array<zchar>, n: nat, pos: nat, ghost key: seq<zchar>) returns (z: zchar)
    requires n <= zchars.Length && pos < KEY_ZCHARS && key == Key(zchars[..n])
    ensures z == key[pos]
  {
    z := if pos < n then zchars[pos] else PAD;
  }

  /** Three z-characters of a key in a word. */
  method PackThree(zchars: array<zchar>, n: nat, pos: nat, ghost key: seq<zchar>) returns (w: word)
    requires n <= zchars.Length && pos + 2 < KEY_ZCHARS && key == Key(zchars[..n])
    ensures w < 0x8000 && w == PackAt(key, pos)
  {
    var a := ZCharOrPad(zchars, n, pos, key);
    var b := ZCharOrPad(zchars, n, pos + 1, key);
    var c := ZCharOrPad(zchars, n, pos + 2, key);
    w := Pack(a, b, c);
  }

  /** Encode the `len` characters at `from` as two key words. */
  method EncodeToken(story: array<byte>, from: nat, len: nat) returns (w0: word, w1: word)
    requires from + len <= story.Length && !Overruns(story[from..from + len])
    ensures (w0, w1) == EncodedWord(story[from..from + len])
  {
    ghost var word := story[from..from + len];
    ghost var key := Key(WordZChars(word));
    var zchars, n := TokenZChars(story, from, len);
    w0 := PackThree(zchars, n, 0, key);
    w1 := PackThree(zchars, n, 3, key);
    w1 := w1 + 0x8000;
    assert EncodedWord(word) == (PackAt(key, 0), PackAt(key, 3) + 0x8000);
  }

  /** Search the dictionary, in order, for the entry with the given two key words. */
  method FindKey(story: array<byte>, dict: nat, w0: word, w1: word) returns (dictaddr: word)
    requires HasDictionary(story[..], dict)
    ensures dictaddr == LookupKey(story[..], dict, [Hi(w0), Lo(w0), Hi(w1), Lo(w1)])
  {
    ghost var bytes := story[..];
    ghost var key := [Hi(w0), Lo(w0), Hi(w1), Lo(w1)];
    var numseps := story[dict];
    var entrylen := story[dict + 1 + numseps];
    var numentries := Word(story[dict + 2 + numseps], story[dict + 3 + numseps]);
    var ptr := dict + 4 + numseps;
    var i := 0;
    while i < numentries
      invariant i <= numentries == EntryCount(bytes, dict) && ptr == EntryAddress(bytes, dict, i)
      invariant FindEntry(bytes, dict, key, 0) == FindEntry(bytes, dict, key, i)
    {
      EntryMatches(bytes, dict, i, w0, w1);
      NextEntry(bytes, dict, i);
      if w0 == Word(story[ptr], story[ptr + 1]) && w1 == Word(story[ptr + 2], story[ptr + 3]) {
        return ToWord(ptr);
      }
      ptr := ptr + entrylen;
      i := i + 1;
    }
    dictaddr := 0;
  }

  lemma EntryMatches(story: seq<byte>, dict: nat, i: nat, w0: word, w1: word)
    requires HasDictionary(story, dict) && i < EntryCount(story, dict)
    ensures var e := EntryAddress(story, dict, i);
      e + 4 <= |story| &&
      (EntryKey(story, dict, i) == [Hi(w0), Lo(w0), Hi(w1), Lo(w1)] <==>
         w0 == Word(story[e], story[e + 1]) && w1 == Word(story[e + 2], story[e + 3]))
  {
    var e := EntryAddress(story, dict, i);
    assert EntryKey(story, dict, i) == [story[e], story[e + 1], story[e + 2], story[e + 3]];
  }

  lemma NextEntry(story: seq<byte>, dict: nat, i: nat)
    requires HasHeader(story, dict)
    ensures EntryAddress(story, dict, i + 1) == EntryAddress(story, dict, i) + EntryLength(story, dict)
  {
  }

  /** `line` lies in the text buffer after its length byte and is closed by a NUL. */
  ghost predicate LineAt(story: seq<byte>, text: nat, line: seq<byte>) {
    && text + 1 + |line| < |story| && |line| <= 255
    && story[text + 1..text + 1 + |line|] == line && story[text + 1 + |line|] == 0
    && 0 !in line
  }

  /** How many words the parse buffer takes: one even when it says none. */
  function Capacity(story: seq<byte>, parse: nat): nat
    requires parse < |story|
  {
    Max(1, story[parse])
  }

  /** The fields not yet seen once the scan has passed position `start`. */
  function Rest(cuts: seq<bool>, start: nat): seq<Field> {
    if start <= |cuts| then Fields(cuts, start) else []
  }

  lemma WordsInLine(cuts: seq<bool>, max: nat)
    ensures FieldsIn(Leading(Fields(cuts, 0), max), |cuts|)
  {
    var fs := Fields(cuts, 0);
    var ws := Leading(fs, max);
    LeadingAreFirstFields(fs, max);
    forall i | 0 <= i < |ws| ensures ws[i].start < ws[i].end <= |cuts| {
      assert ws[i] == fs[i];
      FieldsHaveNoSeparator(cuts, 0, i);
    }
  }

  /** The words a call of the tokenizer records. */
  function Words(story: seq<byte>, dict: nat, parse: nat, line: seq<byte>): (ws: seq<Field>)
    requires HasDictionary(story, dict) && parse < |story|
    ensures |ws| <= Capacity(story, parse) <= 255 && FieldsIn(ws, |line|)
  {
    var fs := Fields(Cuts(line, Separators(story, dict)), 0);
    LeadingAreFirstFields(fs, Capacity(story, parse));
    WordsInLine(Cuts(line, Separators(story, dict)), Capacity(story, parse));
    Leading(fs, Capacity(story, parse))
  }

  /** The story after tokenizing: the number of words and their records in the parse buffer. */
  function Tokenized(story: seq<byte>, dict: nat, parse: nat, line: seq<byte>): seq<byte>
    requires HasDictionary(story, dict) && |line| <= 255 && parse < |story|
    requires parse + 2 + 4 * |Words(story, dict, parse, line)| <= |story|
  {
    var ws := Words(story, dict, parse, line);
    story[..parse + 1] + [|ws|] + Records(story, dict, line, ws) + story[parse + 2 + 4 * |ws|..]
  }

  /** Word by word: the first one starts the line, each next one starts after the separator that ends
      the one before it, and none holds a separator. */
  lemma WordsOfLine(story: seq<byte>, dict: nat, parse: nat, line: seq<byte>, k: nat)
    requires HasDictionary(story, dict) && parse < |story| && k < |Words(story, dict, parse, line)|
    ensures var ws, seps := Words(story, dict, parse, line), Separators(story, dict);
      && ws[k].start == (if k == 0 then 0 else ws[k - 1].end + 1) < ws[k].end <= |line|
      && (forall i :: ws[k].start <= i < ws[k].end ==> !IsSep(line[i], seps))
      && (ws[k].end == |line| || IsSep(line[ws[k].end], seps))
  {
    var seps := Separators(story, dict);
    LeadingWord(Cuts(line, seps), Capacity(story, parse), k);
    assert forall i :: 0 <= i < |line| ==> Cuts(line, seps)[i] == IsSep(line[i], seps);
  }

  lemma LeadingWord(cuts: seq<bool>, max: nat, k: nat)
    requires k < |Leading(Fields(cuts, 0), max)|
    ensures var ws := Leading(Fields(cuts, 0), max);
      && ws[k].start == (if k == 0 then 0 else ws[k - 1].end + 1) < ws[k].end <= |cuts|
      && (forall i :: ws[k].start <= i < ws[k].end ==> !cuts[i])
      && (ws[k].end == |cuts| || cuts[ws[k].end])
  {
    var fs := Fields(cuts, 0);
    var ws := Leading(fs, max);
    LeadingAreFirstFields(fs, max);
    assert ws[k] == fs[k];
    FieldsPartitionLine(cuts, 0, k);
    FieldsHaveNoSeparator(cuts, 0, k);
    if k > 0 {
      assert ws[k - 1] == fs[k - 1];
      FieldsPartitionLine(cuts, 0, k - 1);
    }
  }

  /** Unless the parse buffer is full, the words stop only at an empty word or the end of the line. */
  lemma WordsStop(story: seq<byte>, dict: nat, parse: nat, line: seq<byte>)
    requires HasDictionary(story, dict) && parse < |story|
    requires |Words(story, dict, parse, line)| < Capacity(story, parse)
    ensures var ws := Words(story, dict, parse, line);
      var next := if ws == [] then 0 else ws[|ws| - 1].end + 1;
      next >= |line| || IsSep(line[next], Separators(story, dict))
  {
    LeadingStop(Cuts(line, Separators(story, dict)), Capacity(story, parse));
  }

  lemma LeadingStop(cuts: seq<bool>, max: nat)
    requires |Leading(Fields(cuts, 0), max)| < max
    ensures var ws := Leading(Fields(cuts, 0), max);
      var next := if ws == [] then 0 else ws[|ws| - 1].end + 1;
      next >= |cuts| || cuts[next]
  {
    var fs := Fields(cuts, 0);
    var k := |Leading(fs, max)|;
    LeadingAreFirstFields(fs, max);
    if k > 0 {
      assert Leading(fs, max)[k - 1] == fs[k - 1];
      FieldsPartitionLine(cuts, 0, k - 1);
    }
    if k < |fs| {
      FieldsPartitionLine(cuts, 0, k);
    }
  }

  /** The address recorded for a word is that of the first entry with its key, and 0 if there is none. */
  lemma LookupIsFirstEntry(story: seq<byte>, dict: nat, word: seq<byte>, i: nat)
    requires HasDictionary(story, dict) && i <= EntryCount(story, dict)
    requires forall j :: 0 <= j < i ==> EntryKey(story, dict, j) != KeyBytes(word)
    ensures i == EntryCount(story, dict) ==> Lookup(story, dict, word) == 0
    ensures i < EntryCount(story, dict) && EntryKey(story, dict, i) == KeyBytes(word) ==>
              Lookup(story, dict, word) == ToWord(EntryAddress(story, dict, i))
  {
    var r := FindEntry(story, dict, KeyBytes(word), 0);
    assert r >= i;
  }

  lemma {:induction false} RecordsAt(story: seq<byte>, dict: nat, line: seq<byte>, fs: seq<Field>, k: nat, at: nat)
    requires HasDictionary(story, dict) && |line| <= 255 && FieldsIn(fs, |line|) && k < |fs| && at == 4 * k
    ensures Records(story, dict, line, fs)[at..at + 4] == Record(story, dict, line, fs[k])
    decreases |fs|
  {
    var last := |fs| - 1;
    var before, r := Records(story, dict, line, fs[..last]), Record(story, dict, line, fs[last]);
    if k < last {
      RecordsAt(story, dict, line, fs[..last], k, at);
      assert fs[..last][k] == fs[k];
    }
    SliceOfJoin(before, r, at);
  }

  lemma SliceOfJoin(before: seq<byte>, r: seq<byte>, at: nat)
    requires |r| == 4 && (at + 4 <= |before| || at == |before|)
    ensures (before + r)[at..at + 4] == if at == |before| then r else before[at..at + 4]
  {
  }

  /** What the parse buffer holds afterwards: the number of words, ... */
  lemma ParseCount(story: seq<byte>, dict: nat, parse: nat, line: seq<byte>, n: nat)
    requires HasDictionary(story, dict) && |line| <= 255 && parse < |story|
    requires n == |Words(story, dict, parse, line)| && parse + 2 + 4 * n <= |story|
    ensures var after := Tokenized(story, dict, parse, line);
      |after| == |story| && after[parse + 1] == n
  {
    var rs := Records(story, dict, line, Words(story, dict, parse, line));
    CountAt(story[..parse + 1], n, rs, story[parse + 2 + 4 * n..], parse + 1);
  }

  /** ... and for each of them its dictionary address, its length and its position, counted from the
      length byte. */
  lemma ParseRecord(story: seq<byte>, dict: nat, parse: nat, line: seq<byte>, k: nat, f: Field, at: nat)
    requires HasDictionary(story, dict) && |line| <= 255 && parse < |story|
    requires k < |Words(story, dict, parse, line)| && f == Words(story, dict, parse, line)[k] && at == parse + 2 + 4 * k
    requires parse + 2 + 4 * |Words(story, dict, parse, line)| <= |story|
    ensures var after := Tokenized(story, dict, parse, line);
      at + 4 <= |after| && after[at..at + 4] == Record(story, dict, line, f)
  {
    var ws := Words(story, dict, parse, line);
    var rs, i := Records(story, dict, line, ws), 4 * k;
    RecordsAt(story, dict, line, ws, k, i);
    BlockAt(story[..parse + 1], |ws|, rs, story[parse + 2 + 4 * |ws|..], i, at);
  }

  lemma CountAt(before: seq<byte>, count: byte, rs: seq<byte>, after: seq<byte>, at: nat)
    requires at == |before|
    ensures (before + [count] + rs + after)[at] == count
  {
  }

  lemma BlockAt(before: seq<byte>, count: byte, rs: seq<byte>, after: seq<byte>, i: nat, at: nat)
    requires i + 4 <= |rs| && at == |before| + 1 + i
    ensures (before + [count] + rs + after)[at..at + 4] == rs[i..i + 4]
  {
  }

  lemma NextWord(cuts: seq<bool>, start: nat, max: nat, e: nat, next: nat, max': nat)
    requires start <= |cuts| && max >= 1 && e == WordEnd(cuts, start) != start && next == e + 1 && max' == max - 1
    ensures Leading(Rest(cuts, start), max) == [Field(start, e)] + Leading(Rest(cuts, next), max')
  {
    assert Fields(cuts, start)[1..] == Rest(cuts, next);
  }

  /** Encode the `len` characters at `from` and look them up. */
  method LookupToken(story: array<byte>, dict: nat, from: nat, len: nat) returns (dictaddr: word)
    requires HasDictionary(story[..], dict) && from + len <= story.Length && !Overruns(story[from..from + len])
    ensures dictaddr == Lookup(story[..], dict, story[..][from..from + len])
  {
    assert story[..][from..from + len] == story[from..from + len];
    var w0, w1 := EncodeToken(story, from, len);
    assert KeyBytes(story[from..from + len]) == [Hi(w0), Lo(w0), Hi(w1), Lo(w1)];
    dictaddr := FindKey(story, dict, w0, w1);
  }

  method WriteRecord(story: array<byte>, at: nat, dictaddr: word, toklen: byte, position: byte)
    requires at + 4 <= story.Length
    modifies story
    ensures story[..] == Overwrite(old(story[..]), at, RecordOf(dictaddr, toklen, position))
  {
    story[at], story[at + 1] := Hi(dictaddr), Lo(dictaddr);
    story[at + 2] := toklen;
    story[at + 3] := position;
  }

  /** Encode the `len` characters at `from`, look them up and write their record at `at`. */
  method RecordToken(story: array<byte>, dict: nat, from: nat, len: byte, position: byte, at: nat)
    requires HasDictionary(story[..], dict)
    requires from + len <= story.Length && at + 4 <= story.Length && !Overruns(story[from..from + len])
    modifies story
    ensures story[..] == Overwrite(old(story[..]), at,
                                   RecordOf(Lookup(old(story[..]), dict, old(story[..])[from..from + len]), len, position))
  {
    var dictaddr := LookupToken(story, dict, from, len);
    WriteRecord(story, at, dictaddr, len, position);
  }

  /** Between `s0` and `s` exactly the records of the words `done` were written. */
  ghost predicate Recorded(s0: seq<byte>, s: seq<byte>, dict: nat, parse: nat, line: seq<byte>, done: seq<Field>)
    requires HasDictionary(s0, dict) && |line| <= 255 && FieldsIn(done, |line|)
  {
    var end := parse + 2 + 4 * |done|;
    && end <= |s0|
    && SameOutside(s0, s, parse + 2, end)
    && s[parse + 2..end] == Records(s0, dict, line, done)
  }

  lemma RecordedOutside(s0: seq<byte>, s: seq<byte>, dict: nat, parse: nat, line: seq<byte>, done: seq<Field>, to: nat)
    requires HasDictionary(s0, dict) && |line| <= 255 && FieldsIn(done, |line|)
    requires Recorded(s0, s, dict, parse, line, done) && parse + 2 + 4 * |done| <= to
    ensures SameOutside(s0, s, parse + 2, to) && SameOutside(s0, s, parse + 1, to)
  {
  }

  lemma RecordedMore(s0: seq<byte>, s: seq<byte>, dict: nat, parse: nat, line: seq<byte>, done: seq<Field>, f: Field,
                     at: nat)
    requires HasDictionary(s0, dict) && |line| <= 255 && FieldsIn(done, |line|) && f.start < f.end <= |line|
    requires Recorded(s0, s, dict, parse, line, done) && at == parse + 2 + 4 * |done| && at + 4 <= |s0|
    ensures FieldsIn(done + [f], |line|)
    ensures Recorded(s0, Overwrite(s, at, Record(s0, dict, line, f)), dict, parse, line, done + [f])
  {
    RecordsSnoc(s0, dict, line, done, f);
    BlockGrows(s0, s, parse + 2, at, Records(s0, dict, line, done), Record(s0, dict, line, f), at + 4);
    assert at + 4 == parse + 2 + 4 * |done + [f]|;
  }

  lemma RecordsSnoc(s0: seq<byte>, dict: nat, line: seq<byte>, done: seq<Field>, f: Field)
    requires HasDictionary(s0, dict) && |line| <= 255 && FieldsIn(done, |line|) && f.start < f.end <= |line|
    ensures FieldsIn(done + [f], |line|)
    ensures Records(s0, dict, line, done + [f]) == Records(s0, dict, line, done) + Record(s0, dict, line, f)
  {
    assert (done + [f])[..|done|] == done;
  }

  lemma BlockGrows(s0: seq<byte>, s: seq<byte>, from: nat, at: nat, rs: seq<byte>, r: seq<byte>, to: nat)
    requires at == from + |rs| && to == at + |r| <= |s0| && SameOutside(s0, s, from, at) && s[from..at] == rs
    ensures SameOutside(s0, Overwrite(s, at, r), from, to) && Overwrite(s, at, r)[from..to] == rs + r
  {
    var s' := Overwrite(s, at, r);
    assert s'[from..at] == s[from..at] && s'[at..to] == r;
    assert s'[from..to] == s'[from..at] + s'[at..to];
  }

  /** The buffers the tokenizer works on: the typed line, the dictionary, and a parse buffer for
      `cap` words that overlaps neither. */
  ghost predicate Buffers(s0: seq<byte>, dict: nat, text: nat, parse: nat, line: seq<byte>, cap: nat) {
    var end := parse + 2 + 4 * cap;
    && HasDictionary(s0, dict) && LineAt(s0, text, line)
    && end <= |s0|
    && DictionaryOutside(s0, dict, parse + 1, end)
    && (end <= text + 1 || text + 2 + |line| <= parse + 1)
  }

  /** While records are written, the line and the dictionary read as before. */
  lemma InputsUnchanged(s0: seq<byte>, s: seq<byte>, dict: nat, text: nat, parse: nat, line: seq<byte>, cap: nat,
                        done: seq<Field>)
    requires Buffers(s0, dict, text, parse, line, cap) && FieldsIn(done, |line|) && |done| <= cap
    requires Recorded(s0, s, dict, parse, line, done)
    ensures LineAt(s, text, line) && HasDictionary(s, dict) && Separators(s, dict) == Separators(s0, dict)
    ensures forall word :: Lookup(s, dict, word) == Lookup(s0, dict, word)
  {
    var end := parse + 2 + 4 * cap;
    RecordedOutside(s0, s, dict, parse, line, done, end);
    DictionaryUnchanged(s0, s, dict, parse + 1, end);
    LineUnchanged(s0, s, text, line, parse + 1, end);
  }

  lemma LineUnchanged(s0: seq<byte>, s: seq<byte>, text: nat, line: seq<byte>, from: nat, to: nat)
    requires LineAt(s0, text, line) && SameOutside(s0, s, from, to)
    requires to <= text + 1 || text + 2 + |line| <= from
    ensures LineAt(s, text, line)
  {
    assert s[text + 1..text + 1 + |line|] == s0[text + 1..text + 1 + |line|];
  }

  /** What is recorded for a word read from the current story is its record. */
  lemma NextRecord(s0: seq<byte>, s: seq<byte>, dict: nat, text: nat, parse: nat, line: seq<byte>, cap: nat,
                   done: seq<Field>, f: Field, from: nat, len: byte, position: byte, at: nat)
    requires Buffers(s0, dict, text, parse, line, cap)
    requires |done| < cap && FieldsIn(done, |line|) && f.start < f.end <= |line|
    requires Recorded(s0, s, dict, parse, line, done)
    requires from == text + 1 + f.start && len == f.end - f.start && position == f.start + 1 && at == parse + 2 + 4 * |done|
    ensures HasDictionary(s, dict) && from + len <= |s| && at + 4 <= |s| && s[from..from + len] == line[f.start..f.end]
    ensures FieldsIn(done + [f], |line|)
    ensures Recorded(s0, Overwrite(s, at, RecordOf(Lookup(s, dict, s[from..from + len]), len, position)),
                     dict, parse, line, done + [f])
  {
    InputsUnchanged(s0, s, dict, text, parse, line, cap, done);
    WordOfLine(s, text, line, f, from, len);
    var word := line[f.start..f.end];
    assert Lookup(s, dict, word) == Lookup(s0, dict, word);
    RecordIs(s0, dict, line, f, len, position);
    RecordedMore(s0, s, dict, parse, line, done, f, at);
  }

  /** Record the word `f` of the line as the next one after `done`. */
  method RecordWord(story: array<byte>, dict: nat, text: nat, parse: nat, f: Field, numtoks: nat,
                    ghost s0: seq<byte>, ghost line: seq<byte>, ghost cap: nat, ghost done: seq<Field>)
    requires Buffers(s0, dict, text, parse, line, cap)
    requires numtoks == |done| < cap && FieldsIn(done, |line|) && f.start < f.end <= |line|
    requires Recorded(s0, story[..], dict, parse, line, done) && !Overruns(line[f.start..f.end])
    modifies story
    ensures FieldsIn(done + [f], |line|)
    ensures Recorded(s0, story[..], dict, parse, line, done + [f])
  {
    var from, len, position, at := text + 1 + f.start, f.end - f.start, f.start + 1, parse + 2 + 4 * numtoks;
    NextRecord(s0, story[..], dict, text, parse, line, cap, done, f, from, len, position, at);
    assert story[from..from + len] == story[..][from..from + len];
    RecordToken(story, dict, from, len, position, at);
  }

  lemma RecordIs(s0: seq<byte>, dict: nat, line: seq<byte>, f: Field, len: byte, position: byte)
    requires HasDictionary(s0, dict) && |line| <= 255 && f.start < f.end <= |line|
    requires len == f.end - f.start && position == f.start + 1
    ensures Record(s0, dict, line, f) == RecordOf(Lookup(s0, dict, line[f.start..f.end]), len, position)
  {
  }

  lemma WordOfLine(s: seq<byte>, text: nat, line: seq<byte>, f: Field, from: nat, len: nat)
    requires LineAt(s, text, line) && f.start < f.end <= |line|
    requires from == text + 1 + f.start && len == f.end - f.start
    ensures s[from..from + len] == line[f.start..f.end]
  {
    SliceOfSlice(s, text + 1, text + 1 + |line|, f.start, f.end);
  }

  predicate AtWordEnd(cuts: seq<bool>, ptr: nat)
    requires ptr <= |cuts|
  {
    ptr == |cuts| || cuts[ptr]
  }

  /** Read the character at `ptr` and test whether it ends a word. */
  method ScanChar(story: array<byte>, dict: nat, text: nat, parse: nat, ptr: nat,
                  ghost s0: seq<byte>, ghost line: seq<byte>, ghost cap: nat, ghost done: seq<Field>)
    returns (ch: byte, isSep: bool)
    requires Buffers(s0, dict, text, parse, line, cap)
    requires |done| <= cap && FieldsIn(done, |line|) && ptr <= |line|
    requires Recorded(s0, story[..], dict, parse, line, done)
    ensures ch == 0 <==> ptr == |line|
    ensures isSep <==> AtWordEnd(Cuts(line, Separators(s0, dict)), ptr)
  {
    InputsUnchanged(s0, story[..], dict, text, parse, line, cap, done);
    LineChar(story[..], text, line, ptr);
    ch := story[text + 1 + ptr];
    isSep := IsSeparator(story, dict, ch);
  }

  /** None of these words of the line overruns the encoder's array. */
  ghost predicate Encodable(line: seq<byte>, ws: seq<Field>) {
    forall f :: f in ws ==> f.start <= f.end <= |line| && !Overruns(line[f.start..f.end])
  }

  /** The words still to come when the scan stands at `ptr` in the field that began at `start`. */
  ghost function Remaining(cuts: seq<bool>, start: nat, ptr: nat, max: nat): seq<Field>
    requires start <= ptr <= |cuts| && max >= 1
    decreases |cuts| - ptr
  {
    if !AtWordEnd(cuts, ptr) then Remaining(cuts, start, ptr + 1, max)
    else if ptr == start then []
    else [Field(start, ptr)]
         + if max == 1 || ptr == |cuts| then [] else Remaining(cuts, ptr + 1, ptr + 1, max - 1)
  }

  lemma InsideWord(cuts: seq<bool>, start: nat, ptr: nat, max: nat, next: nat)
    requires start <= ptr <= |cuts| && max >= 1 && !AtWordEnd(cuts, ptr) && next == ptr + 1
    ensures Remaining(cuts, start, ptr, max) == Remaining(cuts, start, next, max)
  {
  }

  lemma AtEndOfWord(cuts: seq<bool>, start: nat, ptr: nat, max: nat, done: seq<Field>, rest: seq<Field>,
                    next: nat, max': nat)
    requires start < ptr <= |cuts| && max >= 1 && AtWordEnd(cuts, ptr)
    requires rest == Remaining(cuts, start, ptr, max) && next == ptr + 1 && max' == max - 1
    ensures rest != [] && done + rest == (done + [Field(start, ptr)]) + rest[1..]
    ensures rest[1..] == if max' == 0 || ptr == |cuts| then [] else Remaining(cuts, next, next, max')
  {
  }

  lemma FirstRemaining(cuts: seq<bool>, line: seq<byte>, start: nat, ptr: nat, max: nat, done: seq<Field>, rest: seq<Field>)
    requires start < ptr <= |cuts| && max >= 1 && AtWordEnd(cuts, ptr) && rest == Remaining(cuts, start, ptr, max)
    requires Encodable(line, done + rest)
    ensures start <= ptr <= |line| && !Overruns(line[start..ptr])
  {
    assert (done + rest)[|done|] == Field(start, ptr);
  }

  /** The scan finds exactly the leading words of the line's fields. */
  lemma {:induction false} RemainingAreLeading(cuts: seq<bool>, start: nat, ptr: nat, max: nat)
    requires start <= ptr <= |cuts| && max >= 1 && WordEnd(cuts, start) == WordEnd(cuts, ptr)
    ensures Remaining(cuts, start, ptr, max) == Leading(Fields(cuts, start), max)
    decreases |cuts| - ptr
  {
    if !AtWordEnd(cuts, ptr) {
      var next := ptr + 1;
      InsideWord(cuts, start, ptr, max, next);
      RemainingAreLeading(cuts, start, next, max);
    } else if ptr != start {
      var next, max' := ptr + 1, max - 1;
      var rest := Remaining(cuts, start, ptr, max);
      NextWord(cuts, start, max, ptr, next, max');
      AtEndOfWord(cuts, start, ptr, max, [], rest, next, max');
      if max' != 0 && ptr != |cuts| {
        RemainingAreLeading(cuts, next, next, max');
      }
      assert rest == [Field(start, ptr)] + Leading(Rest(cuts, next), max');
    }
  }

  lemma BlockWritten(s0: seq<byte>, s: seq<byte>, at: nat, count: byte, rs: seq<byte>, end: nat)
    requires at + 2 + |rs| == end <= |s0| && SameOutside(s0, s, at + 2, end) && s[at + 2..end] == rs
    ensures |s| == |s0| && s[at + 1 := count] == s0[..at + 1] + [count] + rs + s0[end..]
  {
    assert s[..at + 1] == s0[..at + 1] && s[end..] == s0[end..];
  }

  lemma TokenizedIs(s0: seq<byte>, s: seq<byte>, dict: nat, parse: nat, line: seq<byte>)
    requires HasDictionary(s0, dict) && |line| <= 255 && parse < |s0|
    requires Recorded(s0, s, dict, parse, line, Words(s0, dict, parse, line))
    ensures |s| == |s0| && parse + 1 < |s|
    ensures s[parse + 1 := |Words(s0, dict, parse, line)|] == Tokenized(s0, dict, parse, line)
  {
    var ws := Words(s0, dict, parse, line);
    var rs := Records(s0, dict, line, ws);
    BlockWritten(s0, s, parse, |ws|, rs, parse + 2 + 4 * |ws|);
  }

  /** Record the word from `start` to `ptr`, the first of the remaining ones. */
  method TakeWord(story: array<byte>, dict: nat, text: nat, parse: nat, start: nat, ptr: nat, numtoks: nat, next: nat,
                  ghost s0: seq<byte>, ghost line: seq<byte>, ghost cap: nat, ghost cuts: seq<bool>,
                  ghost done: seq<Field>, ghost rest: seq<Field>, ghost left: nat, ghost left': nat)
    returns (ghost done': seq<Field>, ghost rest': seq<Field>)
    requires Buffers(s0, dict, text, parse, line, cap) && |cuts| == |line|
    requires start < ptr <= |cuts| && AtWordEnd(cuts, ptr) && next == ptr + 1 && left' + 1 == left
    requires rest == Remaining(cuts, start, ptr, left) && Encodable(line, done + rest)
    requires numtoks == |done| < cap && FieldsIn(done, |line|) && Recorded(s0, story[..], dict, parse, line, done)
    modifies story
    ensures |done'| == numtoks + 1 && done' + rest' == done + rest && FieldsIn(done', |line|)
    ensures rest' == if left' == 0 || ptr == |cuts| then [] else Remaining(cuts, next, next, left')
    ensures Recorded(s0, story[..], dict, parse, line, done')
  {
    FirstRemaining(cuts, line, start, ptr, left, done, rest);
    RecordWord(story, dict, text, parse, Field(start, ptr), numtoks, s0, line, cap, done);
    AtEndOfWord(cuts, start, ptr, left, done, rest, next, left');
    done', rest' := done + [Field(start, ptr)], rest[1..];
  }

  /** The tokenizer's loop: one character at a time, recording each word when it ends. */
  method ScanLine(story: array<byte>, dict: nat, text: nat, parse: nat, parselen: byte,
                  ghost s0: seq<byte>, ghost line: seq<byte>, ghost cap: nat, ghost cuts: seq<bool>)
    returns (numtoks: nat, ghost done: seq<Field>)
    requires story[..] == s0 && Buffers(s0, dict, text, parse, line, cap) && cuts == Cuts(line, Separators(s0, dict))
    requires cap == Max(1, parselen) && Encodable(line, Remaining(cuts, 0, 0, cap))
    modifies story
    ensures numtoks == |done| && done == Remaining(cuts, 0, 0, cap)
    ensures FieldsIn(done, |line|) && Recorded(s0, story[..], dict, parse, line, done)
  {
    done := [];
    ghost var left, left' := cap, 0;
    ghost var rest := Remaining(cuts, 0, 0, cap);
    var start, ptr := 0, 0;
    numtoks := 0;
    while true
      invariant start <= ptr <= |line| && numtoks == |done| && numtoks + left == cap && left >= 1
      invariant rest == Remaining(cuts, start, ptr, left) && done + rest == Remaining(cuts, 0, 0, cap)
      invariant FieldsIn(done, |line|) && Recorded(s0, story[..], dict, parse, line, done)
      decreases |line| - ptr
    {
      var ch, isSep := ScanChar(story, dict, text, parse, ptr, s0, line, cap, done);
      var next := ptr + 1;
      if isSep {
        if ptr == start {
          break;
        }
        left' := left - 1;
        done, rest := TakeWord(story, dict, text, parse, start, ptr, numtoks, next,
                               s0, line, cap, cuts, done, rest, left, left');
        numtoks, left := numtoks + 1, left';
        if numtoks >= parselen {
          break;
        }
        start := next;
      } else {
        InsideWord(cuts, start, ptr, left, next);
      }
      if ch == 0 {
        break;
      }
      ptr := next;
    }
    assert rest == [];
    assert done + rest == done;
  }

  /** Split the typed line into words and fill in the parse buffer. */
  method TokenizeUserInput(story: array<byte>, dict: nat, text: nat, parse: nat, ghost line: seq<byte>)
    requires parse < story.Length && Buffers(story[..], dict, text, parse, line, Capacity(story[..], parse))
    requires Encodable(line, Words(story[..], dict, parse, line))
    modifies story
    ensures parse + 2 + 4 * |Words(old(story[..]), dict, parse, line)| <= story.Length
    ensures story[..] == Tokenized(old(story[..]), dict, parse, line)
  {
    ghost var s0 := story[..];
    ghost var cuts := Cuts(line, Separators(s0, dict));
    ghost var cap := Capacity(s0, parse);
    RemainingAreLeading(cuts, 0, 0, cap);
    ghost var done;
    var numtoks;
    numtoks, done := ScanLine(story, dict, text, parse, story[parse], s0, line, cap, cuts);
    assert done == Words(s0, dict, parse, line);
    TokenizedIs(s0, story[..], dict, parse, line);
    story[parse + 1] := numtoks;
  }

  lemma LineChar(s: seq<byte>, text: nat, line: seq<byte>, ptr: nat)
    requires LineAt(s, text, line) && ptr <= |line|
    ensures ptr < |line| ==> s[text + 1 + ptr] == line[ptr] != 0
    ensures ptr == |line| ==> s[text + 1 + ptr] == 0
  {
    if ptr < |line| {
      assert s[text + 1..text + 1 + |line|][ptr] == s[text + 1 + ptr];
    }
  }
}
