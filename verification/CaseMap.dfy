/** Word-at-a-time case conversion: modp_toupper_copy and modp_tolower_copy. */
module CaseMap {
  import Bytes

  type octet = bv8

  // ---------- the byte tables ----------

  /** gsToUpperMap. */
  function UpperByte(c: octet): octet {
    if 0x61 <= c <= 0x7a then c - 0x20 else c
  }

  /** gsToLowerMap. */
  function LowerByte(c: octet): octet {
    if 0x41 <= c <= 0x5a then c + 0x20 else c
  }

  function MapByte(upper: bool, c: octet): octet {
    if upper then UpperByte(c) else LowerByte(c)
  }

  function MapText(upper: bool, s: seq<octet>): (r: seq<octet>)
    ensures |r| == |s|
  {
    seq(|s|, i requires 0 <= i < |s| => MapByte(upper, s[i]))
  }

  // ---------- four bytes in one word ----------

  /** The little-endian word at four consecutive bytes. */
  function Word(a: octet, b: octet, c: octet, d: octet): bv32 {
    (a as bv32) | ((b as bv32) << 8) | ((c as bv32) << 16) | ((d as bv32) << 24)
  }

  function Lane(w: bv32, k: nat): octet
    requires k < 4
  {
    if k == 0 then (w & 0xff) as octet
    else if k == 1 then ((w >> 8) & 0xff) as octet
    else if k == 2 then ((w >> 16) & 0xff) as octet
    else ((w >> 24) & 0xff) as octet
  }

  /** The mask the loop bodies compute from a word: 0x20 in each lane that holds a letter
      of the case to change. The step is 0x05 for lower-case letters, 0x25 for upper-case ones. */
  function CaseBits(eax: bv32, step: bv32): bv32 {
    var ebx := (0x7f7f7f7f & eax) + step;
    var ebx := (0x7f7f7f7f & ebx) + 0x1a1a1a1a;
    ((ebx & !eax) >> 2) & 0x20202020
  }

  /** The loop bodies of modp_toupper_copy and modp_tolower_copy. */
  function MapWord(upper: bool, eax: bv32): bv32 {
    if upper then eax - CaseBits(eax, 0x05050505) else eax + CaseBits(eax, 0x25252525)
  }

  // ---------- lanes do not interfere ----------

  /** The upper-case mask only has bits the word has, so subtracting it borrows nothing. */
  lemma UpperClears(w: bv32)
    ensures MapWord(true, w) == w & !CaseBits(w, 0x05050505)
  {
    SubtractSet(w, CaseBits(w, 0x05050505));
  }

  /** The lower-case mask only has bits the word lacks, so adding it carries nothing. */
  lemma LowerSets(w: bv32)
    ensures MapWord(false, w) == w | CaseBits(w, 0x25252525)
  {
    AddClear(w, CaseBits(w, 0x25252525));
  }

  lemma SubtractSet(x: bv32, y: bv32)
    requires x & y == y
    ensures x - y == x & !y
  {
  }

  lemma AddClear(x: bv32, y: bv32)
    requires x & y == 0
    ensures x + y == x | y
  {
  }

  lemma ClearedLane(w: bv32, k: nat)
    requires k < 4
    ensures Lane(w & !CaseBits(w, 0x05050505), k) == UpperByte(Lane(w, k))
  {
    if k == 0 {
    } else if k == 1 {
    } else if k == 2 {
    } else {
    }
  }

  lemma SetLane(w: bv32, k: nat)
    requires k < 4
    ensures Lane(w | CaseBits(w, 0x25252525), k) == LowerByte(Lane(w, k))
  {
    if k == 0 {
    } else if k == 1 {
    } else if k == 2 {
    } else {
    }
  }

  /** No carry or borrow crosses a lane: each byte of the converted word is the byte the
      table gives for the same byte of the word. */
  lemma MapWordLane(upper: bool, w: bv32, k: nat)
    requires k < 4
    ensures Lane(MapWord(upper, w), k) == MapByte(upper, Lane(w, k))
  {
    if upper {
      UpperClears(w);
      ClearedLane(w, k);
    } else {
      LowerSets(w);
      SetLane(w, k);
    }
  }

  lemma LanesOfWord(a: octet, b: octet, c: octet, d: octet)
    ensures var w := Word(a, b, c, d); Lane(w, 0) == a && Lane(w, 1) == b && Lane(w, 2) == c && Lane(w, 3) == d
  {
  }

  /** Converting again changes nothing, and bytes from 0x80 on are never changed. */
  lemma MapTextIdempotent(upper: bool, s: seq<octet>)
    ensures MapText(upper, MapText(upper, s)) == MapText(upper, s)
    ensures forall i :: 0 <= i < |s| && s[i] >= 0x80 ==> MapText(upper, s)[i] == s[i]
  {
    var once := MapText(upper, s);
    forall i | 0 <= i < |s| ensures MapByte(upper, once[i]) == once[i] {
      MapByteIdempotent(upper, s[i]);
    }
  }

  lemma MapByteIdempotent(upper: bool, c: octet)
    ensures MapByte(upper, MapByte(upper, c)) == MapByte(upper, c)
  {
  }

  // ---------- the copy loops ----------

  /** Load four bytes as a word, convert it, and split it again. */
  method ConvertWord(upper: bool, a: octet, b: octet, c: octet, d: octet)
    returns (e: octet, f: octet, g: octet, h: octet)
    ensures [e, f, g, h] == MapText(upper, [a, b, c, d])
  {
    var eax := Word(a, b, c, d);
    var out := MapWord(upper, eax);
    e, f, g, h := Lane(out, 0), Lane(out, 1), Lane(out, 2), Lane(out, 3);
    LanesOfWord(a, b, c, d);
    MapWordLane(upper, eax, 0);
    MapWordLane(upper, eax, 1);
    MapWordLane(upper, eax, 2);
    MapWordLane(upper, eax, 3);
  }

  /** One turn of the word loop: a four-byte load, the lane arithmetic, a four-byte store. */
  method CopyWord(upper: bool, dest: array<octet>, str: array<octet>, at: nat)
    requires at + 4 <= str.Length && at + 4 <= dest.Length
    modifies dest
    ensures dest[..at] == old(dest[..at]) && dest[at + 4..] == old(dest[at + 4..])
    ensures dest[at..at + 4] == MapText(upper, old(str[at..at + 4]))
  {
    var a, b, c, d := str[at], str[at + 1], str[at + 2], str[at + 3];
    assert str[at..at + 4] == [a, b, c, d];
    var e, f, g, h := ConvertWord(upper, a, b, c, d);
    dest[at], dest[at + 1], dest[at + 2], dest[at + 3] := e, f, g, h;
    assert dest[at..at + 4] == [e, f, g, h];
  }

  /** The fall-through switch: up to three more bytes through the table, then the final zero. */
  method CopyLeftover(upper: bool, dest: array<octet>, str: array<octet>, start: nat, leftover: nat)
    requires leftover < 4 && start + leftover <= str.Length && start + leftover < dest.Length
    modifies dest
    ensures dest[..start] == old(dest[..start])
    ensures dest[start..start + leftover] == MapText(upper, old(str[start..start + leftover]))
    ensures dest[start + leftover] == 0
    ensures dest[start + leftover + 1..] == old(dest[start + leftover + 1..])
  {
    ghost var s := str[start..start + leftover];
    var i := start;
    if leftover >= 3 {
      dest[i] := MapByte(upper, str[i]);
      i := i + 1;
    }
    if leftover >= 2 {
      dest[i] := MapByte(upper, str[i]);
      i := i + 1;
    }
    if leftover >= 1 {
      dest[i] := MapByte(upper, str[i]);
      i := i + 1;
    }
    assert dest[start..start + leftover] == MapText(upper, s);
    dest[i] := 0;
  }

  lemma MapTextAppend(upper: bool, s: seq<octet>, i: nat, j: nat)
    requires i <= j <= |s|
    ensures MapText(upper, s[..j]) == MapText(upper, s[..i]) + MapText(upper, s[i..j])
  {
  }

  /** More of the text is converted. */
  lemma Converted(upper: bool, s: seq<octet>, before: seq<octet>, after: seq<octet>, at: nat, next: nat)
    requires at <= next <= |s| && next <= |after| == |before|
    requires before[..at] == MapText(upper, s[..at]) && after[..at] == before[..at]
    requires after[at..next] == MapText(upper, s[at..next])
    ensures after[..next] == MapText(upper, s[..next])
  {
    MapTextAppend(upper, s, at, next);
    assert after[..next] == after[..at] + after[at..next];
  }

  /** modp_toupper_copy and modp_tolower_copy, into another buffer or in place. */
  method MapCopy(upper: bool, dest: array<octet>, str: array<octet>, len: nat)
    requires len <= str.Length && len < dest.Length
    modifies dest
    ensures dest[..len] == MapText(upper, old(str[..len])) && dest[len] == 0
    ensures dest[len + 1..] == old(dest[len + 1..])
  {
    ghost var s, d := str[..], dest[..];
    var leftover, imax := len % 4, len / 4;
    var i, at := 0, 0;
    while i != imax
      invariant 0 <= i <= imax && at == 4 * i <= len
      invariant dest[..at] == MapText(upper, s[..at])
      invariant dest[at..] == d[at..] && str[at..] == s[at..]
      decreases imax - i
    {
      ghost var before, source := dest[..], str[..];
      Bytes.SameTail(before, d, at, at + 4);
      Bytes.SameTail(source, s, at, at + 4);
      CopyWord(upper, dest, str, at);
      Converted(upper, s, before, dest[..], at, at + 4);
      i := i + 1;
      at := at + 4;
    }
    CopyEnd(upper, dest, str, at, leftover, s, d);
  }

  /** What is left behind the words. */
  method CopyEnd(upper: bool, dest: array<octet>, str: array<octet>, at: nat, leftover: nat, ghost s: seq<octet>,
                 ghost d: seq<octet>)
    requires leftover < 4 && at + leftover <= str.Length == |s| && at + leftover < dest.Length == |d|
    requires dest[..at] == MapText(upper, s[..at]) && dest[at..] == d[at..] && str[at..] == s[at..]
    modifies dest
    ensures dest[..at + leftover] == MapText(upper, s[..at + leftover]) && dest[at + leftover] == 0
    ensures dest[at + leftover + 1..] == d[at + leftover + 1..]
  {
    ghost var before, source := dest[..], str[..];
    Bytes.SameTail(source, s, at, at + leftover);
    Bytes.SameTail(before, d, at, at + leftover + 1);
    CopyLeftover(upper, dest, str, at, leftover);
    Converted(upper, s, before, dest[..], at, at + leftover);
  }
}
