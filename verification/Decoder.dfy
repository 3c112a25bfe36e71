/** The loop that decodes packed strings, proved to compute their meaning. */
module Decoder {
  import opened Bytes
  import opened Text

  // ----- the decoder's state between two z-characters

  /** `table` is the pending abbreviation character (0 when none), `collector` the z-characters an
      escape still waits for, `code` what it has collected. */
  datatype Mode = Mode(alphabet: nat, table: nat, collector: nat, code: nat)

  predicate ValidMode(m: Mode) {
    && m.alphabet <= 2 && m.table <= 3 && m.collector <= 2
    && (m.collector == 0 ==> m.code == 0)
    && (m.collector == 2 ==> m.code == 0 && m.table == 0)
    && (m.collector == 1 ==> m.code % 32 == 0 && m.code / 32 < 32 && m.table == 0)
  }

  const START := Mode(0, 0, 0, 0)

  /** The z-characters already read that still await others. */
  ghost function Pending(m: Mode): seq<zchar>
    requires ValidMode(m)
  {
    if m.collector == 2 then [ESCAPE] else if m.collector == 1 then [ESCAPE, m.code / 32]
    else if m.table != 0 then [m.table] else []
  }

  /** The meaning of the rest of a string, read in mode `m`. */
  ghost function Resume(m: Mode, zs: seq<zchar>, ab: Abbreviations): Meaning
    requires ValidMode(m)
  {
    Expand(Pending(m) + zs, if m.collector != 0 then 2 else m.alphabet, ab)
  }

  datatype Output = Plain(s: string) | Abbrev(index: nat)

  function Next(m: Mode, z: zchar): (r: (Mode, Output))
    requires ValidMode(m)
    ensures ValidMode(r.0) && (r.1.Plain? ==> |r.1.s| <= 1)
  {
    if m.collector == 2 then (m.(collector := 1, code := 32 * z), Plain(""))
    else if m.collector == 1 then (START, Plain(ZsciiText(m.code + z)))
    else if m.table != 0 then (START, Abbrev(32 * (m.table - 1) + z))
    else if z == 0 then (START, Plain(" "))
    else if z <= 3 then (START.(table := z), Plain(""))
    else if z <= 5 then (START.(alphabet := z - 3), Plain(""))
    else if z == ESCAPE && m.alphabet == 2 then (START.(collector := 2), Plain(""))
    else (START, Plain([AlphabetChar(m.alphabet, z)]))
  }

  ghost function Meant(o: Output, ab: Abbreviations): Meaning {
    if o.Plain? then Chars(o.s) else Abbreviation(ab, o.index)
  }

  /** Reading one z-character accounts for exactly what it contributes to the meaning. */
  lemma NextMeaning(m: Mode, z: zchar, zs: seq<zchar>, ab: Abbreviations)
    requires ValidMode(m)
    ensures Resume(m, [z] + zs, ab) == Join(Meant(Next(m, z).1, ab), Resume(Next(m, z).0, zs, ab))
  {
    var all := Pending(m) + ([z] + zs);
    var (n, o) := Next(m, z);
    if m.collector == 2 {
      assert all == Pending(n) + zs;
      PrependNothing(Resume(n, zs, ab));
    } else if m.collector == 1 {
      assert all[3..] == Pending(n) + zs;
      assert Pair(m.code / 32, z) == m.code + z;
    } else if m.table != 0 {
      assert all[2..] == Pending(n) + zs;
    } else if z != 0 && z <= 3 {
      assert all == Pending(n) + zs;
      PrependNothing(Resume(n, zs, ab));
    } else if z == ESCAPE && m.alphabet == 2 {
      assert all == Pending(n) + zs;
      PrependNothing(Resume(n, zs, ab));
    } else {
      assert all[1..] == Pending(n) + zs;
      PrependNothing(Resume(n, zs, ab));
    }
  }

  lemma PrependNothing(m: Meaning)
    ensures Prepend("", m) == m
  {
  }

  lemma PrependTwice(s: string, t: string, m: Meaning)
    ensures Prepend(s, Prepend(t, m)) == Prepend(s + t, m)
  {
    if m.Chars? {
      assert s + (t + m.s) == (s + t) + m.s;
    }
  }

  // ----- the output buffer

  /** `b` after writing `text` from `from` on, one character after the other while `capacity` lasts. */
  function Written(b: seq<char>, from: nat, capacity: nat, text: string): (w: seq<char>)
    requires from + capacity <= |b|
    ensures |w| == |b|
    decreases capacity
  {
    if capacity == 0 || text == "" then b else Written(b[from := text[0]], from + 1, capacity - 1, text[1..])
  }

  /** Exactly the leading characters that fit are written, and nothing else changes. */
  lemma {:induction false} WrittenPrefix(b: seq<char>, from: nat, capacity: nat, text: string)
    requires from + capacity <= |b|
    ensures var n := Min(capacity, |text|);
      Written(b, from, capacity, text) == b[..from] + text[..n] + b[from + n..]
    decreases capacity
  {
    if capacity != 0 && text != "" {
      WrittenPrefix(b[from := text[0]], from + 1, capacity - 1, text[1..]);
      var n := Min(capacity, |text|);
      assert text[..n] == [text[0]] + text[1..][..n - 1];
      OneMoreWritten(b, from, text[0], text[1..][..n - 1]);
    }
  }

  lemma OneMoreWritten(b: seq<char>, from: nat, c: char, m: string)
    requires from + 1 + |m| <= |b|
    ensures var b' := b[from := c];
      var k := from + 1;
      b'[..k] + m + b'[k + |m|..] == b[..from] + ([c] + m) + b[k + |m|..]
  {
  }

  /** Writing goes on where it stopped. */
  lemma {:induction false} WrittenAppend(b: seq<char>, from: nat, capacity: nat, s: string, t: string, at: nat, left: nat)
    requires from + capacity <= |b|
    requires at == from + Min(capacity, |s|) && left == capacity - Min(capacity, |s|)
    ensures Written(Written(b, from, capacity, s), at, left, t) == Written(b, from, capacity, s + t)
    ensures at + Min(left, |t|) == from + Min(capacity, |s + t|) && left - Min(left, |t|) == capacity - Min(capacity, |s + t|)
    decreases capacity
  {
    if s == "" {
      assert s + t == t;
    } else if capacity != 0 {
      assert (s + t)[1..] == s[1..] + t;
      WrittenAppend(b[from := s[0]], from + 1, capacity - 1, s[1..], t, at, left);
    }
  }

  // ----- the decoder

  ghost function Source(story: seq<byte>, abbrtab: nat, abbr: bool): Abbreviations {
    if abbr then Forbidden else Table(story, abbrtab)
  }

  /** What is decoded so far and what is still to come make up the string's meaning. */
  ghost predicate Progress(whole: Meaning, acc: string, m: Mode, rest: seq<zchar>, ab: Abbreviations) {
    ValidMode(m) && whole == Prepend(acc, Resume(m, rest, ab))
  }

  lemma ProgressStart(zs: seq<zchar>, ab: Abbreviations)
    ensures Progress(Expand(zs, 0, ab), "", START, zs, ab)
  {
    assert Pending(START) + zs == zs;
    PrependNothing(Expand(zs, 0, ab));
  }

  lemma ProgressStep(whole: Meaning, acc: string, m: Mode, z: zchar, rest: seq<zchar>, ab: Abbreviations)
    requires Progress(whole, acc, m, [z] + rest, ab)
    ensures var (n, o) := Next(m, z);
      && (Meant(o, ab).Chars? ==> Progress(whole, acc + Meant(o, ab).s, n, rest, ab))
      && (!Meant(o, ab).Chars? ==> whole == Meant(o, ab))
  {
    NextMeaning(m, z, rest, ab);
    var (n, o) := Next(m, z);
    if Meant(o, ab).Chars? {
      PrependTwice(acc, Meant(o, ab).s, Resume(n, rest, ab));
    }
  }

  lemma ProgressDone(whole: Meaning, acc: string, m: Mode, ab: Abbreviations)
    requires Progress(whole, acc, m, [], ab)
    ensures whole == Chars(acc)
  {
    assert Pending(m) + [] == Pending(m);
    assert Resume(m, [], ab) == Chars("");
    assert acc + "" == acc;
  }

  /** The z-characters of a word from the `j`-th on, and those of the words after it. */
  ghost function Unread(code: word, j: nat, after: seq<zchar>): seq<zchar>
    requires j <= 3
    decreases 3 - j
  {
    if j == 3 then after else [ZCharOf(code, j)] + Unread(code, j + 1, after)
  }

  lemma UnreadStep(code: word, j: nat, after: seq<zchar>)
    requires j < 3
    ensures Unread(code, j, after) == [ZCharOf(code, j)] + Unread(code, j + 1, after)
  {
  }

  lemma UnreadWord(code: word, after: seq<zchar>)
    ensures Unread(code, 0, after) == [ZCharOf(code, 0), ZCharOf(code, 1), ZCharOf(code, 2)] + after
  {
    UnreadStep(code, 0, after);
    UnreadStep(code, 1, after);
    UnreadStep(code, 2, after);
  }

  lemma FirstWord(story: seq<byte>, addr: nat)
    requires Terminated(story, addr)
    ensures var code := CodeAt(story, addr);
      ZChars(story, addr) == Unread(code, 0, if code >= 0x8000 then [] else ZChars(story, addr + 2))
  {
    var code := CodeAt(story, addr);
    UnreadWord(code, if code >= 0x8000 then [] else ZChars(story, addr + 2));
  }

  /** Store one decoded character if there is room, as the decoder does wherever it prints. */
  method Emit(c: char, buf: array<char>, at: nat, left: nat)
    requires at + left <= buf.Length
    modifies buf
    ensures buf[..] == Written(old(buf[..]), at, left, [c])
  {
    if left != 0 {
      buf[at] := c;
    }
  }

  /** One z-character that does not complete an abbreviation: the new shift, abbreviation and
      escape state, and the character to print, if any. */
  method ReadZChar(alphabet: nat, useAbbrTable: nat, collector: nat, zsciiCode: nat, ch: zchar)
    returns (alphabet': nat, useAbbrTable': nat, collector': nat, zsciiCode': nat, printVal: string)
    requires ValidMode(Mode(alphabet, useAbbrTable, collector, zsciiCode))
    requires collector == 0 ==> useAbbrTable == 0
    ensures (Mode(alphabet', useAbbrTable', collector', zsciiCode'), Plain(printVal))
         == Next(Mode(alphabet, useAbbrTable, collector, zsciiCode), ch)
  {
    alphabet', useAbbrTable', collector', zsciiCode', printVal := alphabet, useAbbrTable, collector, zsciiCode, "";
    if collector != 0 {
      zsciiCode' := if collector == 2 then zsciiCode + 32 * ch else zsciiCode + ch;
      collector' := collector - 1;
      if collector' == 0 {
        printVal := ZsciiText(zsciiCode');
        alphabet', useAbbrTable', zsciiCode' := 0, 0, 0;
      }
    } else {
      var newshift := false;
      if ch == 0 {
        printVal := " ";
      } else if ch <= 3 {
        useAbbrTable' := ch;
      } else if ch <= 5 {
        newshift := true;
        alphabet' := ch - 3;
      } else if ch == ESCAPE && alphabet == 2 {
        collector' := 2;
      } else {
        printVal := [AlphabetChar(alphabet, ch)];
      }
      if alphabet' != 0 && !newshift {
        alphabet' := 0;
      }
    }
  }

  /** Decode abbreviation `index`, whose string may not use abbreviations itself. */
  method DecodeAbbreviation(story: array<byte>, abbrtab: nat, index: nat, buf: array<char>, from: nat, capacity: nat)
    returns (died: bool, decoded: nat)
    requires from + capacity <= buf.Length
    requires !Abbreviation(Table(story[..], abbrtab), index).Runaway?
    modifies buf
    ensures var text := Abbreviation(Table(story[..], abbrtab), index);
      && (died <==> text.Dies?)
      && (!died ==> decoded == |text.s| && buf[..] == Written(old(buf[..]), from, capacity, text.s))
    decreases 1, 0
  {
    var entry := abbrtab + 2 * index;
    var abbraddr := 2 * Word(story[entry], story[entry + 1]) as int;
    var length;
    died, decoded, length := DecodeZscii(story, abbrtab, abbraddr, true, buf, from, capacity);
  }

  /** The decoder's work on one z-character: `n` characters come out of it, as many as fit are written. */
  method DecodeZChar(story: array<byte>, abbrtab: nat, abbr: bool,
                     alphabet: nat, useAbbrTable: nat, collector: nat, zsciiCode: nat, ch: zchar,
                     buf: array<char>, at: nat, left: nat)
    returns (died: bool, n: nat, alphabet': nat, useAbbrTable': nat, collector': nat, zsciiCode': nat)
    requires at + left <= buf.Length
    requires ValidMode(Mode(alphabet, useAbbrTable, collector, zsciiCode))
    requires !Meant(Next(Mode(alphabet, useAbbrTable, collector, zsciiCode), ch).1, Source(story[..], abbrtab, abbr)).Runaway?
    modifies buf
    ensures var (m, o) := Next(Mode(alphabet, useAbbrTable, collector, zsciiCode), ch);
      var text := Meant(o, Source(story[..], abbrtab, abbr));
      && (died <==> text.Dies?)
      && (!died ==>
            && n == |text.s|
            && buf[..] == Written(old(buf[..]), at, left, text.s)
            && Mode(alphabet', useAbbrTable', collector', zsciiCode') == m)
    decreases if abbr then 0 else 1, 1
  {
    died, n, alphabet', useAbbrTable', collector', zsciiCode' := false, 0, 0, 0, 0, 0;
    if collector == 0 && useAbbrTable != 0 {
      if abbr {
        died := true;
      } else {
        died, n := DecodeAbbreviation(story, abbrtab, 32 * (useAbbrTable - 1) + ch, buf, at, left);
      }
    } else {
      var printVal: string;
      alphabet', useAbbrTable', collector', zsciiCode', printVal :=
        ReadZChar(alphabet, useAbbrTable, collector, zsciiCode, ch);
      n := |printVal|;
      if printVal != "" {
        Emit(printVal[0], buf, at, left);
      }
    }
  }

  /** The decoder's work on one word: its three z-characters from the top bits down. Of what the
      word and the z-characters `after` it mean, `text` is decoded, and the rest remains. */
  method DecodeWord(story: array<byte>, abbrtab: nat, abbr: bool, code: word,
                    alphabet: nat, useAbbrTable: nat, collector: nat, zsciiCode: nat,
                    buf: array<char>, at: nat, left: nat, ghost after: seq<zchar>)
    returns (died: bool, n: nat, alphabet': nat, useAbbrTable': nat, collector': nat, zsciiCode': nat, ghost text: string)
    requires at + left <= buf.Length
    requires ValidMode(Mode(alphabet, useAbbrTable, collector, zsciiCode))
    requires !Resume(Mode(alphabet, useAbbrTable, collector, zsciiCode), Unread(code, 0, after),
                     Source(story[..], abbrtab, abbr)).Runaway?
    modifies buf
    ensures var ab := Source(story[..], abbrtab, abbr);
      var whole := Resume(Mode(alphabet, useAbbrTable, collector, zsciiCode), Unread(code, 0, after), ab);
      && (died ==> whole.Dies?)
      && (!died ==>
            && Progress(whole, text, Mode(alphabet', useAbbrTable', collector', zsciiCode'), after, ab)
            && n == |text| && buf[..] == Written(old(buf[..]), at, left, text))
    decreases if abbr then 0 else 1, 2
  {
    ghost var bytes, b0 := story[..], buf[..];
    ghost var ab := Source(bytes, abbrtab, abbr);
    alphabet', useAbbrTable', collector', zsciiCode' := alphabet, useAbbrTable, collector, zsciiCode;
    died, n, text := false, 0, "";
    ghost var whole := Resume(Mode(alphabet, useAbbrTable, collector, zsciiCode), Unread(code, 0, after), ab);
    PrependNothing(whole);
    var next, room := at, left;
    var j := 0;
    while j < 3
      invariant j <= 3 && story[..] == bytes
      invariant Progress(whole, text, Mode(alphabet', useAbbrTable', collector', zsciiCode'), Unread(code, j, after), ab)
      invariant n == |text| && next == at + Min(left, n) && room == left - Min(left, n)
      invariant buf[..] == Written(b0, at, left, text)
    {
      var ch := ZCharOf(code, j);
      ghost var m := Mode(alphabet', useAbbrTable', collector', zsciiCode');
      j := j + 1;
      ProgressStep(whole, text, m, ch, Unread(code, j, after), ab);
      var k;
      died, k, alphabet', useAbbrTable', collector', zsciiCode' :=
        DecodeZChar(story, abbrtab, abbr, alphabet', useAbbrTable', collector', zsciiCode', ch, buf, next, room);
      if died {
        return;
      }
      ghost var t := Meant(Next(m, ch).1, ab).s;
      WrittenAppend(b0, at, left, text, t, next, room);
      n, next, room := n + k, next + Min(room, k), room - Min(room, k);
      text := text + t;
    }
  }

  /** Decode the string at `addr` into at most `capacity` characters of `buf` from `from` on. Whatever
      the capacity, the full text's length and the string's length in bytes are reported, and exactly
      the leading characters that fit are written. */
  method DecodeZscii(story: array<byte>, abbrtab: nat, addr: nat, abbr: bool,
                     buf: array<char>, from: nat, capacity: nat)
    returns (died: bool, decoded: nat, length: nat)
    requires from + capacity <= buf.Length
    requires Terminated(story[..], addr)
    requires !StringAt(story[..], addr, Source(story[..], abbrtab, abbr)).Runaway?
    modifies buf
    ensures var text := StringAt(story[..], addr, Source(story[..], abbrtab, abbr));
      && (died <==> text.Dies?)
      && (!died ==>
            && decoded == |text.s|
            && length == ByteLength(story[..], addr)
            && buf[..] == Written(old(buf[..]), from, capacity, text.s))
    decreases if abbr then 0 else 1, 3
  {
    ghost var bytes, b0 := story[..], buf[..];
    ghost var ab := Source(bytes, abbrtab, abbr);
    ghost var zs := ZChars(bytes, addr);
    ghost var whole := Expand(zs, 0, ab);
    ghost var acc := "";
    ghost var rest := zs;
    var str := addr;
    var at, left := from, capacity;
    var alphabet, useAbbrTable, collector, zsciiCode := 0, 0, 0, 0;
    var last := false;
    died, decoded := false, 0;
    ProgressStart(zs, ab);
    while !last
      invariant story[..] == bytes && 3 * (str - addr) == 2 * (|zs| - |rest|)
      invariant if last then rest == [] else Terminated(bytes, str) && rest == ZChars(bytes, str)
      invariant Progress(whole, acc, Mode(alphabet, useAbbrTable, collector, zsciiCode), rest, ab)
      invariant decoded == |acc| && at == from + Min(capacity, |acc|) && left == capacity - Min(capacity, |acc|)
      invariant buf[..] == Written(b0, from, capacity, acc)
      decreases !last, |bytes| - str
    {
      var code := Word(story[str], story[str + 1]);
      assert code == CodeAt(bytes, str);
      ghost var m := Mode(alphabet, useAbbrTable, collector, zsciiCode);
      FirstWord(bytes, str);
      rest := if code >= 0x8000 then [] else ZChars(bytes, str + 2);
      var n;
      ghost var text;
      died, n, alphabet, useAbbrTable, collector, zsciiCode, text :=
        DecodeWord(story, abbrtab, abbr, code, alphabet, useAbbrTable, collector, zsciiCode, buf, at, left, rest);
      if died {
        length := 0;
        return;
      }
      PrependTwice(acc, text, Resume(Mode(alphabet, useAbbrTable, collector, zsciiCode), rest, ab));
      WrittenAppend(b0, from, capacity, acc, text, at, left);
      decoded, at, left := decoded + n, at + Min(left, n), left - Min(left, n);
      acc := acc + text;
      last := code >= 0x8000;
      str := str + 2;
    }
    ProgressDone(whole, acc, Mode(alphabet, useAbbrTable, collector, zsciiCode), ab);
    length := str - addr;
  }

  /** Print the string at `addr`: a second pass into a buffer of the reported size when the first
      512 characters do not hold it all. The text printed is the whole text either way. */
  method PrintZscii(story: array<byte>, abbrtab: nat, addr: nat, abbr: bool)
    returns (died: bool, text: string, length: nat)
    requires Terminated(story[..], addr)
    requires !StringAt(story[..], addr, Source(story[..], abbrtab, abbr)).Runaway?
    ensures var meaning := StringAt(story[..], addr, Source(story[..], abbrtab, abbr));
      && (died <==> meaning.Dies?)
      && (!died ==> text == meaning.s && length == ByteLength(story[..], addr))
  {
    ghost var bytes := story[..];
    var buf := new char[512](_ => ' ');
    var n;
    died, n, length := DecodeZscii(story, abbrtab, addr, abbr, buf, 0, 512);
    text := "";
    if died {
      return;
    }
    ghost var whole := StringAt(bytes, addr, Source(bytes, abbrtab, abbr)).s;
    if n > 512 {
      buf := new char[n](_ => ' ');
      died, n, length := DecodeZscii(story, abbrtab, addr, abbr, buf, 0, n);
    }
    text := buf[..n];
    FillsFromStart(buf[..], n, whole);
  }

  lemma FillsFromStart(b: seq<char>, n: nat, text: string)
    requires n == |text| <= |b|
    requires exists b0: seq<char>, c: nat :: |text| <= c <= |b0| && b == Written(b0, 0, c, text)
    ensures b[..n] == text
  {
    var b0: seq<char>, c: nat :| |text| <= c <= |b0| && b == Written(b0, 0, c, text);
    WrittenPrefix(b0, 0, c, text);
    assert b0[..0] + text[..n] == text;
  }

  /** Store `n` consecutive characters starting with `first`. */
  method FillRange(table: array<char>, at: nat, first: char, n: nat)
    requires at + n <= table.Length && n <= 26 && first as int + 26 <= 0x80
    modifies table
    ensures forall k :: 0 <= k < n ==> table[at + k] == CharFrom(first, k)
    ensures forall k :: 0 <= k < table.Length && !(at <= k < at + n) ==> table[k] == old(table[k])
  {
    var i := 0;
    while i < n
      invariant i <= n
      invariant forall k :: 0 <= k < i ==> table[at + k] == CharFrom(first, k)
      invariant forall k :: 0 <= k < table.Length && !(at <= k < at + i) ==> table[k] == old(table[k])
    {
      table[at + i] := (first as int + i) as char;
      i := i + 1;
    }
  }

  /** Fill in the three alphabets, 26 characters each. */
  method InitAlphabetTable(table: array<char>)
    requires table.Length == 78
    modifies table
    ensures forall i :: 0 <= i < 78 ==> table[i] == AlphabetEntry(i)
  {
    FillRange(table, 0, 'a', 26);
    FillRange(table, 26, 'A', 26);
    assert forall k :: 26 <= k < 52 ==> table[k] == table[26 + (k - 26)];
    table[52], table[53] := '\0', '\n';
    FillRange(table, 54, '0', 10);
    assert forall k :: 54 <= k < 64 ==> table[k] == table[54 + (k - 54)];
    table[64], table[65], table[66], table[67], table[68] := '.', ',', '!', '?', '_';
    table[69], table[70], table[71], table[72], table[73] := '#', '\'', '"', '/', '\\';
    table[74], table[75], table[76], table[77] := '-', ':', '(', ')';
    assert table[64..78] == PUNCTUATION;
    assert forall k :: 64 <= k < 78 ==> table[k] == table[64..78][k - 64];
  }
}
