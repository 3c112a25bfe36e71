/** Bytes, 16-bit words and the byte orders the interpreter mixes. */
module Bytes {
  type byte = x: int | 0 <= x < 0x100
  type word = x: int | 0 <= x < 0x1_0000

  datatype Option<+T> = None | Some(value: T)

  function Word(hi: byte, lo: byte): word {
    var high: int, low: int := hi, lo;
    0x100 * high + low
  }

  function Hi(w: word): byte {
    w / 0x100
  }

  function Lo(w: word): byte {
    w % 0x100
  }

  /** The two bytes of a native word exchanged: how a big-endian value looks when
      read as a native word on the little-endian host, and the other way round. */
  function Swap(w: word): (r: word)
    ensures Hi(r) == Lo(w) && Lo(r) == Hi(w)
  {
    Word(Lo(w), Hi(w))
  }

  lemma WordOfBytes(w: word)
    ensures Word(Hi(w), Lo(w)) == w
  {
  }

  lemma SwapTwice(w: word)
    ensures Swap(Swap(w)) == w
  {
    WordOfBytes(w);
  }

  function Signed(w: word): (r: int)
    ensures -0x8000 <= r < 0x8000
  {
    if w < 0x8000 then w else w - 0x1_0000
  }

  /** Truncation to 16 bits, as a C conversion to an unsigned 16-bit type does it. */
  function ToWord(x: int): word {
    x % 0x1_0000
  }

  function Min(a: int, b: int): int {
    if a < b then a else b
  }

  function Max(a: int, b: int): int {
    if a < b then b else a
  }

  lemma SliceOfSlice<T>(s: seq<T>, a: nat, b: nat, i: nat, j: nat)
    requires a <= b <= |s| && i <= j <= b - a
    ensures s[a..b][i..j] == s[a + i..a + j]
  {
    forall k | 0 <= k < j - i ensures s[a..b][i..j][k] == s[a + i..a + j][k] {
      assert s[a..b][i..j][k] == s[a..b][i + k] == s[a + (i + k)];
    }
  }

  /** `s` with the elements of `r` stored from `at` on. */
  function Overwrite<T>(s: seq<T>, at: nat, r: seq<T>): (t: seq<T>)
    requires at + |r| <= |s|
    ensures |t| == |s|
  {
    s[..at] + r + s[at + |r|..]
  }

  lemma OverwriteGrows<T>(s: seq<T>, at: nat, r: seq<T>, i: nat)
    requires at + |r| <= |s| && i < |r|
    ensures Overwrite(s, at, r[..i])[at + i := r[i]] == Overwrite(s, at, r[..i + 1])
  {
  }

  lemma OverwriteTwice<T>(s: seq<T>, at: nat, r: seq<T>, q: seq<T>, next: nat)
    requires at + |r| + |q| <= |s| && next == at + |r|
    ensures Overwrite(Overwrite(s, at, r), next, q) == Overwrite(s, at, r + q)
  {
  }
}
