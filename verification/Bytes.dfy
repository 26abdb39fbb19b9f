/** Machine integers and the little-endian words that the router code reads from packet memory. */
module Bytes {

  type byte = x: int | 0 <= x < 0x100
  type u16 = x: int | 0 <= x < 0x1_0000
  type u32 = x: int | 0 <= x < 0x1_0000_0000

  function Word(hi: byte, lo: byte): u16 {
    256 * (hi as int) + lo as int
  }

  lemma WordOrder(hi: byte, lo: byte, hi': byte, lo': byte)
    ensures hi < hi' ==> Word(hi, lo) < Word(hi', lo')
  {
    if hi < hi' {
      assert 256 * (hi as int) + 256 <= 256 * (hi' as int);
    }
  }

  lemma WordInjective(hi: byte, lo: byte, hi': byte, lo': byte)
    requires Word(hi, lo) == Word(hi', lo')
    ensures hi == hi' && lo == lo'
  {
    WordOrder(hi, lo, hi', lo');
    WordOrder(hi', lo', hi, lo);
  }

  /** The 16-bit word at offset k, as a little-endian machine loads it. */
  function Get16(s: seq<byte>, k: nat): u16
    requires k + 2 <= |s|
  {
    Word(s[k + 1], s[k])
  }

  /** The same two bytes read in network byte order (ntohs of Get16). */
  function GetNet16(s: seq<byte>, k: nat): u16
    requires k + 2 <= |s|
  {
    Word(s[k], s[k + 1])
  }

  /** The high and the low byte of a word. */
  ghost function Halves(v: u16): (r: (byte, byte))
    ensures Word(r.0, r.1) == v
  {
    assert Word(v / 256, v % 256) == v;
    var hi: byte, lo: byte :| Word(hi, lo) == v;
    (hi, lo)
  }

  lemma HalvesOf(v: u16)
    ensures Halves(v) == (v / 256, v % 256)
  {
  }

  /** s with the native word v stored at offset k. */
  ghost function Put16(s: seq<byte>, k: nat, v: u16): (r: seq<byte>)
    requires k + 2 <= |s|
    ensures |r| == |s|
  {
    s[k := Halves(v).1][k + 1 := Halves(v).0]
  }

  /** The word with its two bytes exchanged: htons on a little-endian machine. */
  ghost function Swap(v: u16): u16 {
    Word(Halves(v).1, Halves(v).0)
  }

  lemma SwapWord(hi: byte, lo: byte)
    ensures Swap(Word(hi, lo)) == Word(lo, hi)
  {
    var h := Halves(Word(hi, lo));
    WordInjective(h.0, h.1, hi, lo);
  }

  /** *(unsigned short *)(dst + k) = v */
  method Store(dst: array<byte>, k: nat, v: u16)
    requires k + 2 <= dst.Length
    modifies dst
    ensures dst[..] == Put16(old(dst[..]), k, v)
  {
    HalvesOf(v);
    dst[k], dst[k + 1] := v % 256, v / 256;
  }

  /** *(unsigned short *)(src + k) */
  method Load(src: array<byte>, k: nat) returns (v: u16)
    requires k + 2 <= src.Length
    ensures v == Get16(src[..], k)
  {
    v := src[k] as int + 256 * (src[k + 1] as int);
  }

  /** memcpy(dst + at, data, |data|) */
  method Copy(dst: array<byte>, at: nat, data: seq<byte>)
    requires at + |data| <= dst.Length
    modifies dst
    ensures dst[..] == old(dst[..at]) + data + old(dst[at + |data|..])
  {
    forall i | 0 <= i < |data| { dst[at + i] := data[i]; }
    assert dst[..] == dst[..at] + dst[at..at + |data|] + dst[at + |data|..];
  }
}
