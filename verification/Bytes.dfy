/** Text and byte helpers shared by the exporter and the assembler. */
module Bytes {
  datatype Option<+T> = None | Some(value: T)

  type byte = b: int | 0 <= b < 256

  function Sum(bs: seq<byte>): (s: nat) {
    if bs == [] then 0 else bs[0] + Sum(bs[1..])
  }

  lemma {:induction false} SumAppend(a: seq<byte>, b: seq<byte>)
    ensures Sum(a + b) == Sum(a) + Sum(b)
  {
    if a == [] {
      assert a + b == b;
    } else {
      SumAppend(a[1..], b);
      assert (a + b)[1..] == a[1..] + b;
    }
  }

  lemma SameTail<T>(a: seq<T>, b: seq<T>, i: nat, j: nat)
    requires i <= j <= |a| == |b| && a[i..] == b[i..]
    ensures a[i..j] == b[i..j] && a[j..] == b[j..]
  {
    assert a[i..j] == a[i..][..j - i] && b[i..j] == b[i..][..j - i];
    assert a[j..] == a[i..][j - i..] && b[j..] == b[i..][j - i..];
  }

  /** The hexstr table. */
  function HexDigit(d: nat): (c: char)
    requires d < 16
  {
    "0123456789ABCDEF"[d]
  }

  function HexValue(c: char): Option<nat> {
    if '0' <= c <= '9' then Some(c as int - '0' as int)
    else if 'A' <= c <= 'F' then Some(c as int - 'A' as int + 10)
    else None
  }

  lemma HexDigitValue(d: nat)
    requires d < 16
    ensures HexValue(HexDigit(d)) == Some(d)
  {
  }

  /** printf's %X. */
  function HexNumber(n: nat): (s: string)
    ensures |s| >= 1
  {
    if n < 16 then [HexDigit(n)] else HexNumber(n / 16) + [HexDigit(n % 16)]
  }

  /** printf's %02X and %04X: zero-padded on the left, longer when the number needs it. */
  function HexPadded(n: nat, width: nat): (s: string) {
    var digits := HexNumber(n);
    if |digits| >= width then digits else seq(width - |digits|, _ => '0') + digits
  }

  function HexByte(b: byte): (s: string)
    ensures |s| == 2
  {
    [HexDigit(b / 16), HexDigit(b % 16)]
  }

  lemma HexPaddedStep(n: nat, width: nat)
    requires width >= 1
    ensures HexPadded(n, width + 1) == HexPadded(n / 16, width) + [HexDigit(n % 16)]
  {
    if n < 16 {
      assert HexNumber(n / 16) == ['0'];
      assert HexPadded(n / 16, width) == seq(width, _ => '0');
    }
  }

  lemma HexPadded2(b: byte)
    ensures HexPadded(b, 2) == HexByte(b)
  {
    HexPaddedStep(b, 1);
  }

  lemma HexPadded4(n: nat)
    requires n < 0x10000
    ensures HexPadded(n, 4) == HexByte(n / 256) + HexByte(n % 256)
  {
    HexPaddedStep(n, 3);
    HexPaddedStep(n / 16, 2);
    assert n / 16 / 16 == n / 256;
    HexPadded2(n / 256);
    assert n / 16 % 16 == n % 256 / 16 && n % 16 == n % 256 % 16;
  }

  function HexBytes(bs: seq<byte>): (s: string)
    ensures |s| == 2 * |bs|
  {
    if bs == [] then "" else HexByte(bs[0]) + HexBytes(bs[1..])
  }

  lemma Reassociate<T>(a: seq<T>, b: seq<T>, c: seq<T>)
    ensures a + b + c == a + (b + c)
  {
  }

  lemma {:induction false} HexBytesAppend(a: seq<byte>, b: seq<byte>)
    ensures HexBytes(a + b) == HexBytes(a) + HexBytes(b)
  {
    if a == [] {
      assert a + b == b;
    } else {
      HexBytesAppend(a[1..], b);
      assert (a + b)[0] == a[0] && (a + b)[1..] == a[1..] + b;
      Reassociate(HexByte(a[0]), HexBytes(a[1..]), HexBytes(b));
    }
  }

  lemma ThreeBytes(a: byte, b: byte, c: byte)
    ensures HexBytes([a, b, c]) == HexByte(a) + HexByte(b) + HexByte(c)
    ensures Sum([a, b, c]) == a + b + c
  {
    var s: seq<byte> := [a, b, c];
    assert s[1..] == [b, c] && [b, c][1..] == [c] && [c][1..] == [];
    assert Sum([c]) == c && Sum([b, c]) == b + c;
    assert HexBytes([c]) == HexByte(c) + "";
    assert HexBytes([b, c]) == HexByte(b) + HexByte(c);
  }

  lemma FourBytes(a: byte, b: byte, c: byte, d: byte)
    ensures HexBytes([a, b, c, d]) == HexByte(a) + HexByte(b) + HexByte(c) + HexByte(d)
    ensures Sum([a, b, c, d]) == a + b + c + d
  {
    var s: seq<byte> := [a, b, c, d];
    assert s[1..] == [b, c, d];
    ThreeBytes(b, c, d);
  }

  function UnhexBytes(s: string): (r: Option<seq<byte>>)
    ensures r.Some? ==> |s| == 2 * |r.value|
  {
    if s == "" then Some([])
    else if |s| == 1 then None
    else match (HexValue(s[0]), HexValue(s[1]), UnhexBytes(s[2..]))
      case (Some(h), Some(l), Some(rest)) => if h < 16 && l < 16 then Some([h * 16 + l] + rest) else None
      case _ => None
  }

  lemma UnhexStep(b: byte, rest: string)
    ensures UnhexBytes(HexByte(b) + rest)
      == if UnhexBytes(rest).None? then None else Some([b] + UnhexBytes(rest).value)
  {
    var s := HexByte(b) + rest;
    HexDigitValue(b / 16);
    HexDigitValue(b % 16);
    assert s[0] == HexDigit(b / 16) && s[1] == HexDigit(b % 16) && s[2..] == rest;
    UnhexPair(s, b / 16, b % 16, b, rest);
  }

  lemma UnhexPair(s: string, h: nat, l: nat, b: byte, rest: string)
    requires |s| >= 2 && HexValue(s[0]) == Some(h) && HexValue(s[1]) == Some(l) && h < 16 && l < 16
    requires b == h * 16 + l && s[2..] == rest
    ensures UnhexBytes(s) == if UnhexBytes(rest).None? then None else Some([b] + UnhexBytes(rest).value)
  {
  }

  lemma {:induction false} UnhexHex(bs: seq<byte>)
    ensures UnhexBytes(HexBytes(bs)) == Some(bs)
  {
    if bs != [] {
      UnhexHex(bs[1..]);
      UnhexStep(bs[0], HexBytes(bs[1..]));
      assert [bs[0]] + bs[1..] == bs;
    }
  }

  function Reverse<T>(s: seq<T>): (r: seq<T>)
    ensures |r| == |s|
  {
    if s == [] then [] else Reverse(s[1..]) + [s[0]]
  }

  function Repeat<T>(x: T, n: nat): (r: seq<T>)
    ensures |r| == n
  {
    seq(n, _ => x)
  }

  /** Elements written over those from a place on. */
  function Overwrite<T>(s: seq<T>, at: nat, t: seq<T>): (r: seq<T>)
    requires at + |t| <= |s|
    ensures |r| == |s|
  {
    s[..at] + t + s[at + |t|..]
  }

  lemma OverwriteInner<T>(a: seq<T>, was: seq<T>, now: seq<T>, c: seq<T>)
    requires |was| == |now|
    ensures Overwrite(a + (was + c), |a|, now) == a + (now + c)
  {
    var s := a + (was + c);
    assert s[..|a|] == a && s[|a| + |now|..] == c;
    Reassociate(a, now, c);
  }
}
