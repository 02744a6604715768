/** makeapp: the size check, the appended signature block, the predicted length in the
    8xk header, and the finished file. The application's own header fields are not touched here. */
module AppFile {
  import opened Bytes
  import opened IntelHex
  import opened NumberTheory
  import Signer

  const SIGNATURE_SIZE := 96

  // ---------- the size check and the predicted length ----------

  /** makeapp refuses an application whose signature would open a page of its own. */
  predicate NoRoomForSignature(size: nat) {
    var last := (size + SIGNATURE_SIZE) % PAGE;
    last != 0 && last < 97 && size > PAGE
  }

  /** The pages field, counted before the signature is appended. */
  function PageCount(size: nat): nat {
    size / PAGE + (if size % PAGE != 0 then 1 else 0)
  }

  /** The number written in the 8xk header. */
  function PredictedLength(size: nat): nat {
    var total := size + SIGNATURE_SIZE;
    77 * (total / 32) + PageCount(size) * 17 + 11 + (if total % 32 != 0 then 2 * (total % 32) + 13 else 0)
  }

  lemma PagesAfterSigning(size: nat)
    ensures var last := (size + SIGNATURE_SIZE) % PAGE;
      CeilDiv(size + SIGNATURE_SIZE, PAGE) == PageCount(size) + (if last == 0 || last >= 97 then 0 else 1)
  {
    var q, r := size / PAGE, size % PAGE;
    assert size == q * PAGE + r;
    if r + SIGNATURE_SIZE < PAGE {
      assert (size + SIGNATURE_SIZE) / PAGE == q && (size + SIGNATURE_SIZE) % PAGE == r + SIGNATURE_SIZE;
    } else {
      assert (size + SIGNATURE_SIZE) / PAGE == q + 1 && (size + SIGNATURE_SIZE) % PAGE == r + SIGNATURE_SIZE - PAGE;
    }
  }

  /** The header tells the exact length of the text intelhex writes, for every size at which the
      signature does not spill onto a page of its own, and falls one page record short otherwise. */
  lemma PredictedLengthExact(size: nat, signed: seq<byte>)
    requires |signed| == size + SIGNATURE_SIZE <= 0x10000 * PAGE
    ensures var last := (size + SIGNATURE_SIZE) % PAGE;
      |HexFrom(signed, 0)| == PredictedLength(size) + (if last == 0 || last >= 97 then 0 else 17)
  {
    HexFromLength(signed, 0);
    PagesAfterSigning(size);
  }

  /** The size check does not cover the last page of a one-page application: makeapp accepts
      sizes 16289 to 16384 (and an empty one) and writes a length that is 17 too small. */
  lemma AcceptedWithWrongLength(size: nat, signed: seq<byte>)
    requires |signed| == size + SIGNATURE_SIZE <= 0x10000 * PAGE
    ensures !NoRoomForSignature(size) && |HexFrom(signed, 0)| != PredictedLength(size)
      <==> size == 0 || 16289 <= size <= 16384
  {
    PredictedLengthExact(size, signed);
    if size <= PAGE {
      LastPageOfOne(size);
    }
  }

  lemma LastPageOfOne(size: nat)
    requires size <= PAGE
    ensures var last := (size + SIGNATURE_SIZE) % PAGE;
      !(last == 0 || last >= 97) <==> size == 0 || 16289 <= size <= 16384
  {
    if size + SIGNATURE_SIZE < PAGE {
      assert (size + SIGNATURE_SIZE) % PAGE == size + SIGNATURE_SIZE;
    } else {
      assert (size + SIGNATURE_SIZE) % PAGE == size + SIGNATURE_SIZE - PAGE;
    }
  }

  /** At those sizes the header falls short by exactly the record of the page it does not count. */
  lemma ShortByOnePage(size: nat, signed: seq<byte>)
    requires |signed| == size + SIGNATURE_SIZE && 16289 <= size <= 16384
    ensures |HexFrom(signed, 0)| == PredictedLength(size) + 17
  {
    PredictedLengthExact(size, signed);
    LastPageOfOne(size);
  }

  // ---------- the signature block ----------

  /** mpz_export, least significant byte first. */
  function ToBytes(n: nat): seq<byte> {
    if n == 0 then [] else [n % 256] + ToBytes(n / 256)
  }

  function FromBytes(bs: seq<byte>): nat {
    if bs == [] then 0 else bs[0] + 256 * FromBytes(bs[1..])
  }

  lemma {:induction false} FromToBytes(n: nat)
    ensures FromBytes(ToBytes(n)) == n
  {
    if n != 0 {
      FromToBytes(n / 256);
      assert ToBytes(n)[1..] == ToBytes(n / 256);
    }
  }

  /** mpz_sizeinbase in base 16. */
  function SizeInBase16(n: nat): nat {
    if n < 16 then 1 else 1 + SizeInBase16(n / 16)
  }

  /** Half the hexadecimal digits, rounded up, is the number of bytes exported. */
  lemma {:induction false} ByteCount(n: nat)
    requires n > 0
    ensures (SizeInBase16(n) + 1) / 2 == |ToBytes(n)|
  {
    if n >= 256 {
      ByteCount(n / 256);
      assert n / 16 / 16 == n / 256;
      assert SizeInBase16(n) == 2 + SizeInBase16(n / 256);
    } else {
      assert ToBytes(n / 256) == [];
    }
  }

  lemma {:induction false} ByteBound(n: nat, k: nat)
    requires n < Pow(256, k)
    ensures |ToBytes(n)| <= k
  {
    if n != 0 {
      assert k > 0;
      ByteBound(n / 256, k - 1);
    }
  }

  /** Tag, length, signature and f. */
  function SignatureFields(f: byte, sig: nat): (r: seq<byte>)
    requires |ToBytes(sig)| <= 64
    ensures |r| <= 69
  {
    [0x02, 0x2d, |ToBytes(sig)|] + ToBytes(sig) + (if f != 0 then [1, f] else [0])
  }

  /** The 96 bytes makeapp appends: the fields and filler. */
  function SignatureBlock(f: byte, sig: nat): (r: seq<byte>)
    requires |ToBytes(sig)| <= 64
    ensures |r| == SIGNATURE_SIZE
  {
    var fields := SignatureFields(f, sig);
    fields + seq(SIGNATURE_SIZE - |fields|, _ => 0xFF)
  }

  /** What a reader of the block finds. */
  function ReadBlock(block: seq<byte>): Option<(nat, nat)>
  {
    if |block| < 5 || block[0] != 0x02 || block[1] != 0x2d then None else
      var end: nat := 3 + (block[2] as nat);
      if |block| < end + 2 then None
      else Some((if block[end] == 0 then 0 else block[end + 1], FromBytes(block[3..end])))
  }

  lemma BlockRoundTrip(f: byte, sig: nat)
    requires |ToBytes(sig)| <= 64
    ensures ReadBlock(SignatureBlock(f, sig)) == Some((f as nat, sig))
  {
    var bytes := ToBytes(sig);
    var block := SignatureBlock(f, sig);
    var end: nat := 3 + |bytes|;
    assert block[3..end] == bytes;
    FromToBytes(sig);
    assert block[end] == if f != 0 then 1 else 0;
    assert f != 0 ==> block[end + 1] == f;
  }

  /** mpz_export into the buffer. */
  method Export(buffer: array<byte>, at: nat, bytes: seq<byte>)
    requires at + |bytes| <= buffer.Length
    modifies buffer
    ensures buffer[..at] == old(buffer[..at])
    ensures buffer[at..at + |bytes|] == bytes
  {
    forall i | 0 <= i < |bytes| {
      buffer[at + i] := bytes[i];
    }
  }

  /** The tag and the length in front of the signature, and f behind it. */
  method PutHead(buffer: array<byte>, size: nat, siglength: byte)
    requires size + 3 <= buffer.Length
    modifies buffer
    ensures buffer[..size] == old(buffer[..size]) && buffer[size + 3..] == old(buffer[size + 3..])
    ensures buffer[size..size + 3] == [0x02, 0x2d, siglength]
  {
    buffer[size + 0] := 0x02;
    buffer[size + 1] := 0x2d;
    buffer[size + 2] := siglength;
  }

  method PutF(buffer: array<byte>, at: nat, f: byte) returns (totalSize: nat)
    requires at + 2 <= buffer.Length
    modifies buffer
    ensures buffer[..at] == old(buffer[..at])
    ensures totalSize == at + (if f != 0 then 2 else 1)
    ensures buffer[at..totalSize] == if f != 0 then [1, f] else [0]
  {
    totalSize := at;
    if f != 0 {
      buffer[totalSize] := 1;
      totalSize := totalSize + 1;
      buffer[totalSize] := f;
      totalSize := totalSize + 1;
    } else {
      buffer[totalSize] := 0;
      totalSize := totalSize + 1;
    }
  }

  lemma Slices(s: seq<byte>, i: nat, j: nat, k: nat)
    requires i <= j <= k <= |s|
    ensures s[i..k] == s[i..j] + s[j..k]
  {
  }

  lemma SliceOfTail(s: seq<byte>, i: nat, j: nat)
    requires i <= j <= |s|
    ensures s[i..j] == s[i..][..j - i]
  {
  }

  /** siggen's export and the fields around it, written at buffer + size. */
  method PutFields(buffer: array<byte>, size: nat, f: byte, sig: nat) returns (totalSize: nat)
    requires size + 256 <= buffer.Length && 0 < sig && |ToBytes(sig)| <= 64
    modifies buffer
    ensures totalSize == size + |SignatureFields(f, sig)|
    ensures buffer[..size] == old(buffer[..size])
    ensures buffer[size..totalSize] == SignatureFields(f, sig)
  {
    ByteCount(sig);
    var siglength := (SizeInBase16(sig) + 1) / 2;
    var exported := ToBytes(sig);
    var at := size + 3 + siglength;
    Export(buffer, size + 3, exported);
    ghost var first := buffer[..];
    PutHead(buffer, size, siglength);
    ghost var second := buffer[..];
    assert second[size..at] == [0x02, 0x2d, siglength] + exported by {
      Slices(second, size, size + 3, at);
      SliceOfTail(second, size + 3, at);
      SliceOfTail(first, size + 3, at);
    }
    totalSize := PutF(buffer, at, f);
    ghost var third := buffer[..];
    assert third[..at] == second[..at];
    assert third[size..at] == third[..at][size..] && second[size..at] == second[..at][size..];
    Slices(third, size, at, totalSize);
    assert third[..size] == third[..at][..size] && second[..size] == second[..at][..size];
  }

  /** The filler loop. */
  method Fill(buffer: array<byte>, start: nat, count: nat)
    requires start + count <= buffer.Length
    modifies buffer
    ensures buffer[..start] == old(buffer[..start])
    ensures buffer[start..start + count] == seq(count, _ => 0xFF)
  {
    var totalSize, tempnum := start, count;
    while tempnum != 0
      invariant 0 <= tempnum && totalSize + tempnum == start + count
      invariant start <= totalSize
      invariant buffer[..start] == old(buffer[..start])
      invariant buffer[start..totalSize] == seq(totalSize - start, _ => 0xFF)
    {
      tempnum := tempnum - 1;
      buffer[totalSize] := 0xFF;
      totalSize := totalSize + 1;
    }
  }

  /** Appends the signature to the buffer in place. */
  method AppendSignature(buffer: array<byte>, size: nat, f: byte, sig: nat) returns (totalSize: nat)
    requires size + 256 <= buffer.Length && 0 < sig && |ToBytes(sig)| <= 64
    modifies buffer
    ensures totalSize == size + SIGNATURE_SIZE
    ensures buffer[..totalSize] == old(buffer[..size]) + SignatureBlock(f, sig)
  {
    totalSize := PutFields(buffer, size, f, sig);
    ghost var fields := buffer[..totalSize];
    assert fields == buffer[..size] + buffer[size..totalSize];
    var tempnum := SIGNATURE_SIZE - (totalSize - size);
    Fill(buffer, totalSize, tempnum);
    ghost var end := totalSize + tempnum;
    assert buffer[..end] == buffer[..totalSize] + buffer[totalSize..end];
    totalSize := totalSize + tempnum;
  }

  // ---------- the whole file ----------

  datatype Outcome = Rejected | Written(f: byte, sig: nat, text: string, file: seq<byte>)

  /** Everything before the Intel HEX text except the length: the 8xk header, its zeros and its type. */
  function FileHeader(name: seq<byte>): (r: seq<byte>)
    requires |name| == 8
    ensures |r| == 74
  {
    [0x2A, 0x2A, 0x54, 0x49, 0x46, 0x4C, 0x2A, 0x2A, 1, 1, 1, 0x88, 0x01, 0x01, 0x19, 0x97, 8] + name
      + seq(23, _ => 0) + [0x73, 0x24] + seq(24, _ => 0)
  }

  function LittleEndian4(n: nat): (r: seq<byte>)
    ensures |r| == 4
    ensures n < 0x1_0000_0000 ==> FromBytes(r) == n
  {
    var r: seq<byte> := [n % 256, n / 256 % 256, n / 65536 % 256, n / 16777216 % 256];
    assert n < 0x1_0000_0000 ==> FromBytes(r) == n by {
      if n < 0x1_0000_0000 { FourByteValue(n); }
    }
    r
  }

  lemma FromCons(b: byte, rest: seq<byte>)
    ensures FromBytes([b] + rest) == b + 256 * FromBytes(rest)
  {
    assert ([b] + rest)[1..] == rest;
  }

  lemma FourByteValue(n: nat)
    requires n < 0x1_0000_0000
    ensures FromBytes([n % 256, n / 256 % 256, n / 65536 % 256, n / 16777216 % 256]) == n
  {
    var a, b, c, d: byte := n % 256, n / 256 % 256, n / 65536 % 256, n / 16777216 % 256;
    FromCons(d, []);
    FromCons(c, [d]);
    FromCons(b, [c, d]);
    FromCons(a, [b, c, d]);
    assert [d] + [] == [d] && [c] + [d] == [c, d] && [b] + [c, d] == [b, c, d] && [a] + [b, c, d] == [a, b, c, d];
    assert n / 65536 == n / 256 / 256 && n / 16777216 == n / 256 / 256 / 256;
  }

  function Text(s: string): (r: seq<byte>)
    ensures |r| == |s|
  {
    seq(|s|, i requires 0 <= i < |s| => (s[i] as int) % 256)
  }

  /** The tempnum computed for the header, from the signed size and the pages field. */
  method HeaderLength(totalSize: nat, pages: nat) returns (length: nat)
    requires totalSize >= SIGNATURE_SIZE && pages == PageCount(totalSize - SIGNATURE_SIZE)
    ensures length == PredictedLength(totalSize - SIGNATURE_SIZE)
  {
    length := 77 * (totalSize / 32) + pages * 17 + 11;
    var size := totalSize % 32;
    if size != 0 {
      length := length + size * 2 + 13;
    }
  }

  /** A finished file: the signature verifies, the text loads to the signed application and the
      header holds the predicted length, short by one page record if the signature spilled over. */
  ghost predicate Finished(app: seq<byte>, name: seq<byte>, hash: nat, k: Signer.Key, r: Outcome)
    requires |name| == 8 && Signer.GoodKey(k) && r.Written?
  {
    && |ToBytes(r.sig)| <= 64
    && Signer.Signs(r.sig, r.f, Signer.Message(hash), k)
    && Load(r.text, 0) == Some(PlaceFrom(0, app + SignatureBlock(r.f, r.sig)))
    && r.file == FileHeader(name) + LittleEndian4(PredictedLength(|app|)) + Text(r.text)
    && var last := (|app| + SIGNATURE_SIZE) % PAGE;
       |r.text| == PredictedLength(|app|) + (if last == 0 || last >= 97 then 0 else 17)
  }

  /** makeapp on an application whose header fields are already set; md5 stands for the digest. */
  method MakeApp(app: seq<byte>, name: seq<byte>, md5: seq<byte> -> nat, k: Signer.Key) returns (r: Outcome)
    requires |name| == 8 && |app| + SIGNATURE_SIZE <= 256 * PAGE
    requires Signer.GoodKey(k) && Signer.WideKey(k) && k.n <= Pow(256, 64)
    requires md5(app) < Signer.HASH_LIMIT
    ensures r.Rejected? <==> NoRoomForSignature(|app|)
    ensures r.Written? ==> Finished(app, name, md5(app), k, r)
  {
    var size := |app|;
    var tempnum := (size + SIGNATURE_SIZE) % PAGE;
    if tempnum != 0 {
      if tempnum < 97 && size > PAGE {
        return Rejected;
      }
    }
    var buffer := new byte[size + 256];
    forall i | 0 <= i < size {
      buffer[i] := app[i];
    }
    assert buffer[..size] == app;
    var pages := size / PAGE;
    if size % PAGE != 0 {
      pages := pages + 1;
    }
    var hash := md5(app);
    var f, sig := Signer.Siggen(hash, k);
    ByteBound(sig, 64);
    var totalSize := AppendSignature(buffer, size, f, sig);
    var length := HeaderLength(totalSize, pages);
    var text := WriteHex(buffer[..totalSize]);
    RoundTrip(buffer[..totalSize]);
    PredictedLengthExact(size, buffer[..totalSize]);
    r := Written(f, sig, text, FileHeader(name) + LittleEndian4(length) + Text(text));
  }
}
