/** The Intel HEX writer for TI pages: intelhex, with a loader that reads its text back. */
module IntelHex {
  import opened Bytes

  const PAGE := 0x4000
  const BASE := 0x4000
  const LINE := 0x20
  const END_RECORD := ":00000001FF"

  // ---------- what intelhex writes ----------

  /** unsigned char of ~x + 1. */
  function Negate(x: int): byte {
    (-x) % 256
  }

  /** The record that selects a page, as the format string prints it. */
  function PageHeader(page: nat): string {
    ":02000002" + HexPadded(page, 4) + HexPadded(Negate(4 + page), 2) + "\r\n"
  }

  /** The format string of a data record. */
  function FormatData(count: nat, address: nat, digits: string, checksum: byte): string {
    ":" + HexPadded(count, 2) + HexPadded(address, 4) + "00" + digits + HexPadded(checksum, 2) + "\r\n"
  }

  function DataRecord(address: nat, data: seq<byte>): string {
    FormatData(|data|, address, HexBytes(data), Checksum(address, data))
  }

  /** The unsigned char sum of address and data, plus the count, negated. */
  function Checksum(address: nat, data: seq<byte>): byte {
    Negate((address / 256 + address % 256 + Sum(data)) % 256 + |data|)
  }

  function Min(a: nat, b: nat): nat {
    if a < b then a else b
  }

  function PageText(data: seq<byte>, address: nat): string {
    if data == [] then "" else
      var k := Min(LINE, |data|);
      DataRecord(address, data[..k]) + PageText(data[k..], address + LINE)
  }

  function HexFrom(data: seq<byte>, page: nat): string {
    if data == [] then END_RECORD else
      var k := Min(PAGE, |data|);
      PageHeader(page) + PageText(data[..k], BASE) + HexFrom(data[k..], page + 1)
  }

  function AddByte(sum: byte, b: byte): byte {
    (sum + b) % 256
  }

  /** The two digits of one byte go to outbuf. */
  method PutDigits(outbuf: array<char>, at: nat, temp: byte) returns (ci: nat)
    requires at + 2 <= outbuf.Length
    modifies outbuf
    ensures ci == at + 2 && outbuf[..ci] == old(outbuf[..at]) + HexByte(temp)
  {
    ci := at;
    outbuf[ci] := HexDigit(temp / 16);
    ci := ci + 1;
    outbuf[ci] := HexDigit(temp % 16);
    ci := ci + 1;
  }

  /** The ci loop: up to 32 bytes become hexadecimal digits in outbuf while the checksum grows. */
  method FillLine(buffer: seq<byte>, start: nat, address: nat, outbuf: array<char>)
    returns (bpnt: nat, ci: nat, chksum: byte)
    requires start < |buffer| && outbuf.Length == 128
    modifies outbuf
    ensures bpnt == start + Min(LINE, |buffer| - start) && ci == 2 * |buffer[start..bpnt]|
    ensures outbuf[..ci] == HexBytes(buffer[start..bpnt])
    ensures chksum == (address / 256 + address % 256 + Sum(buffer[start..bpnt])) % 256
  {
    ghost var base := address / 256 + address % 256;
    chksum := (address / 256 + address % 256) % 256;
    ci, bpnt := 0, start;
    while ci < 64 && bpnt < |buffer|
      invariant ci == 2 * (bpnt - start)
      invariant start <= bpnt <= start + Min(LINE, |buffer| - start)
      invariant outbuf[..ci] == HexBytes(buffer[start..bpnt])
      invariant chksum == (base + Sum(buffer[start..bpnt])) % 256
    {
      var temp := buffer[bpnt];
      LineGrows(buffer, start, bpnt);
      ChecksumGrows(chksum, base + Sum(buffer[start..bpnt]), temp);
      bpnt := bpnt + 1;
      ci := PutDigits(outbuf, ci, temp);
      chksum := AddByte(chksum, temp);
    }
  }

  lemma ChecksumGrows(chksum: byte, sum: nat, b: byte)
    requires chksum == sum % 256
    ensures AddByte(chksum, b) == (sum + b) % 256
  {
  }

  lemma LineGrows(b: seq<byte>, i: nat, j: nat)
    requires i <= j < |b|
    ensures HexBytes(b[i..j + 1]) == HexBytes(b[i..j]) + HexByte(b[j])
    ensures Sum(b[i..j + 1]) == Sum(b[i..j]) + b[j]
  {
    HexBytesAppend(b[i..j], [b[j]]);
    SumAppend(b[i..j], [b[j]]);
    assert HexBytes([b[j]]) == HexByte(b[j]);
    assert b[i..j + 1] == b[i..j] + [b[j]];
  }

  /** The body of the i loop: one data record. */
  method PrintLine(buffer: seq<byte>, start: nat, address: nat) returns (record: string, bpnt: nat)
    requires start < |buffer|
    ensures bpnt == start + Min(LINE, |buffer| - start)
    ensures record == DataRecord(address, buffer[start..bpnt])
  {
    var outbuf := new char[128];
    var ci, chksum;
    bpnt, ci, chksum := FillLine(buffer, start, address, outbuf);
    ghost var data := buffer[start..bpnt];
    var digits := outbuf[..ci];
    ci := ci / 2;
    assert ci == |data|;
    var check := Negate(chksum + ci);
    assert check == Checksum(address, data);
    record := FormatData(ci, address, digits, check);
  }

  /** The i loop: at most 512 records of one page, starting again at address 0x4000. */
  method WritePage(file: string, buffer: seq<byte>, start: nat) returns (text: string, bpnt: nat)
    requires start < |buffer|
    ensures bpnt == start + Min(PAGE, |buffer| - start)
    ensures text == file + PageText(buffer[start..bpnt], BASE)
  {
    ghost var end := start + Min(PAGE, |buffer| - start);
    ghost var whole := file + PageText(buffer[start..end], BASE);
    var address, i := BASE, 0;
    text, bpnt := file, start;
    while bpnt < |buffer| && i < 512
      invariant i <= 512 && address == BASE + LINE * i
      invariant bpnt == start + Min(LINE * i, end - start)
      invariant text + PageText(buffer[bpnt..end], address) == whole
    {
      ghost var lineStart := bpnt;
      var record;
      record, bpnt := PrintLine(buffer, bpnt, address);
      FirstLine(buffer, lineStart, bpnt, end, address);
      Reassociate(text, record, PageText(buffer[bpnt..end], address + LINE));
      text := text + record;
      address := address + LINE;
      i := i + 1;
    }
    assert bpnt == end;
    assert PageText(buffer[bpnt..end], address) == "";
    assert whole == text + "" == text;
  }

  lemma FirstLine(b: seq<byte>, i: nat, j: nat, end: nat, address: nat)
    requires i < j <= end <= |b| && j == i + Min(LINE, end - i)
    ensures PageText(b[i..end], address) == DataRecord(address, b[i..j]) + PageText(b[j..end], address + LINE)
  {
    var data := b[i..end];
    assert data[..j - i] == b[i..j];
    assert data[j - i..] == b[j..end];
  }

  /** intelhex. */
  method WriteHex(buffer: seq<byte>) returns (file: string)
    ensures file == HexFrom(buffer, 0)
  {
    file := "";
    var page, bpnt := 0, 0;
    assert buffer[0..] == buffer;
    while bpnt < |buffer|
      invariant 0 <= bpnt <= |buffer| && 0 <= page
      invariant file + HexFrom(buffer[bpnt..], page) == HexFrom(buffer, 0)
    {
      ghost var start, before := bpnt, file;
      var header := ":02000002" + HexPadded(page, 4) + HexPadded(Negate(4 + page), 2) + "\r\n";
      page := page + 1;
      file, bpnt := WritePage(file + header, buffer, bpnt);
      FirstPage(buffer, start, bpnt, page - 1);
      ghost var body, rest := PageText(buffer[start..bpnt], BASE), HexFrom(buffer[bpnt..], page);
      Reassociate(before, header, body);
      Reassociate(before, header + body, rest);
    }
    assert buffer[bpnt..] == [];
    file := file + ":00000001FF";
  }

  lemma FirstPage(b: seq<byte>, i: nat, j: nat, page: nat)
    requires i < j <= |b| && j == i + Min(PAGE, |b| - i)
    ensures HexFrom(b[i..], page) == PageHeader(page) + PageText(b[i..j], BASE) + HexFrom(b[j..], page + 1)
  {
    assert b[i..][..j - i] == b[i..j];
    assert b[i..][j - i..] == b[j..];
  }

  // ---------- reading the text back ----------

  datatype Record = Record(kind: byte, address: nat, data: seq<byte>)

  /** A byte of memory: the page selected when it was loaded, its address and its value. */
  datatype Placed = Placed(page: nat, address: nat, value: byte)

  function Word(high: nat, low: nat): nat {
    high * 256 + low
  }

  function RecordOf(body: seq<byte>): Record
    requires |body| >= 5
  {
    Record(body[3], Word(body[1], body[2]), body[4..|body| - 1])
  }

  /** One record of the Intel format: length, address, type, data and a checksum that makes
      all bytes sum to zero modulo 256. */
  function ParseRecord(s: string): (r: Option<(Record, string)>)
    ensures r.Some? ==> |r.value.1| < |s|
  {
    if |s| < 11 || s[0] != ':' then None else
      match UnhexBytes(s[1..3])
      case None => None
      case Some(length) =>
        var count: nat := length[0];
        var end := 11 + 2 * count;
        if |s| < end then None else
          match UnhexBytes(s[1..end])
          case None => None
          case Some(body) =>
            if Sum(body) % 256 != 0 then None
            else Some((RecordOf(body), s[end..]))
  }

  function PlaceRun(page: nat, address: nat, data: seq<byte>): (r: seq<Placed>)
    ensures |r| == |data|
  {
    seq(|data|, k requires 0 <= k < |data| => Placed(page, address + k, data[k]))
  }

  /** Loads a whole file: type 02 selects the page, type 00 places data, type 01 ends it. */
  function Load(s: string, page: nat): Option<seq<Placed>>
    decreases |s|
  {
    match ParseRecord(s)
    case None => None
    case Some((record, rest)) =>
      if record.kind == 1 then (if rest == "" then Some([]) else None)
      else if |rest| < 2 || rest[..2] != "\r\n" then None
      else if record.kind == 2 then
        if |record.data| != 2 then None else Load(rest[2..], Word(record.data[0], record.data[1]))
      else if record.kind == 0 then
        match Load(rest[2..], page) {
          case None => None
          case Some(image) => Some(PlaceRun(page, record.address, record.data) + image)
        }
      else None
  }

  /** The text of a record with a given body, checksum included. */
  function RecordText(body: seq<byte>): string {
    ":" + HexBytes(body)
  }

  /** Where the parts of a record stand. */
  lemma RecordSlices(body: seq<byte>, rest: string)
    requires |body| >= 5
    ensures var s, end := RecordText(body) + rest, 1 + 2 * |body|;
      && |s| >= end && s[0] == ':' && s[1..end] == HexBytes(body) && s[end..] == rest
      && s[1..3] == HexBytes([body[0]])
  {
    var s := RecordText(body) + rest;
    assert HexBytes(body) == HexByte(body[0]) + HexBytes(body[1..]);
    assert HexBytes([body[0]]) == HexByte(body[0]);
    assert s[1..3] == HexByte(body[0]);
  }

  lemma ParseParts(s: string, length: seq<byte>, count: nat, body: seq<byte>, rest: string, end: nat)
    requires |length| == 1 && length[0] == count && end == 11 + 2 * count <= |s| && s[0] == ':' && |body| >= 5
    requires UnhexBytes(s[1..3]) == Some(length) && UnhexBytes(s[1..end]) == Some(body) && s[end..] == rest
    ensures ParseRecord(s) == if Sum(body) % 256 != 0 then None else Some((RecordOf(body), rest))
  {
  }

  lemma ParseText(body: seq<byte>, rest: string)
    requires |body| >= 5 && |body| - 5 == body[0]
    ensures ParseRecord(RecordText(body) + rest)
      == if Sum(body) % 256 != 0 then None
         else Some((RecordOf(body), rest))
  {
    var s := RecordText(body) + rest;
    RecordSlices(body, rest);
    assert UnhexBytes(s[1..3]) == Some([body[0]]) by {
      UnhexHex([body[0]]);
    }
    assert UnhexBytes(s[1..1 + 2 * |body|]) == Some(body) by {
      UnhexHex(body);
    }
    ParseParts(s, [body[0]], body[0], body, rest, 1 + 2 * |body|);
  }

  /** The seven bytes of a page record. */
  function PageBody(page: nat): seq<byte>
    requires page < 0x10000
  {
    [2, 0, 0, 2] + [page / 256, page % 256, Negate(4 + page)]
  }

  lemma HeaderIsRecord(page: nat)
    requires page < 0x10000
    ensures PageHeader(page) == RecordText(PageBody(page)) + "\r\n"
  {
    var hi, lo, c: byte := page / 256, page % 256, Negate(4 + page);
    HexPadded4(page);
    HexPadded2(c);
    HexBytesAppend([2, 0, 0, 2], [hi, lo, c]);
    PagePrefix();
    ThreeBytes(hi, lo, c);
    HeaderConcat(HexByte(hi), HexByte(lo), HexByte(c));
  }

  lemma PagePrefix()
    ensures HexBytes([2, 0, 0, 2]) == "02000002"
  {
    FourBytes(2, 0, 0, 2);
    assert HexByte(2) == "02" && HexByte(0) == "00";
  }

  lemma HeaderConcat(a: string, b: string, c: string)
    ensures ":02000002" + (a + b) + c + "\r\n" == ":" + ("02000002" + (a + b + c)) + "\r\n"
  {
  }

  lemma HeaderSum(page: nat)
    requires page < 0x10000
    ensures Sum(PageBody(page)) == 4 + page / 256 + page % 256 + Negate(4 + page)
  {
    FourBytes(2, 0, 0, 2);
    ThreeBytes(page / 256, page % 256, Negate(4 + page));
    SumAppend([2, 0, 0, 2], [page / 256, page % 256, Negate(4 + page)]);
  }

  /** The checksum of a page record is right exactly for the first 256 pages. */
  lemma HeaderChecksum(page: nat)
    requires page < 0x10000
    ensures Sum(PageBody(page)) % 256 == 0 <==> page < 256
  {
    HeaderSum(page);
    HeaderArithmetic(page);
  }

  lemma HeaderArithmetic(page: nat)
    requires page < 0x10000
    ensures (4 + page / 256 + page % 256 + (-(4 + page)) % 256) % 256 == page / 256
  {
    var hi, lo := page / 256, page % 256;
    var c := (-(4 + page)) % 256;
    var w := (-(4 + page)) / 256;
    assert -(4 + page) == 256 * w + c;
    assert 4 + hi + lo + c == hi - 256 * (hi + w);
  }

  /** The bytes of a data record. */
  function DataBody(address: nat, data: seq<byte>): seq<byte>
    requires address < 0x10000 && |data| < 256
  {
    [|data|, address / 256, address % 256, 0] + data + [Checksum(address, data)]
  }

  lemma DataIsRecord(address: nat, data: seq<byte>)
    requires address < 0x10000 && |data| < 256
    ensures DataRecord(address, data) == RecordText(DataBody(address, data)) + "\r\n"
  {
    var n, hi, lo: byte := |data|, address / 256, address % 256;
    var c := Checksum(address, data);
    HexPadded2(n);
    HexPadded4(address);
    HexPadded2(c);
    HexBytesAppend([n, hi, lo, 0], data);
    HexBytesAppend([n, hi, lo, 0] + data, [c]);
    assert HexBytes([c]) == HexByte(c);
    FourBytes(n, hi, lo, 0);
    DataConcat(HexByte(n), HexByte(hi), HexByte(lo), HexBytes(data), HexByte(c));
  }

  lemma DataConcat(n: string, hi: string, lo: string, data: string, c: string)
    ensures ":" + n + (hi + lo) + "00" + data + c + "\r\n" == ":" + (n + hi + lo + "00" + data + c) + "\r\n"
  {
  }

  lemma WrappedSum(n: byte, hi: byte, lo: byte, data: seq<byte>, c: byte)
    ensures Sum([n, hi, lo, 0] + data + [c]) == n + hi + lo + Sum(data) + c
  {
    SumAppend([n, hi, lo, 0], data);
    SumAppend([n, hi, lo, 0] + data, [c]);
    assert Sum([c]) == c;
    FourBytes(n, hi, lo, 0);
  }

  lemma DataChecksum(address: nat, data: seq<byte>)
    requires address < 0x10000 && |data| < 256
    ensures Sum(DataBody(address, data)) % 256 == 0
  {
    WrappedSum(|data|, address / 256, address % 256, data, Checksum(address, data));
    NegateCompletes(address / 256 + address % 256 + Sum(data), |data|);
  }

  lemma NegateCompletes(sum: nat, count: nat)
    ensures (count + sum + Negate(sum % 256 + count)) % 256 == 0
  {
    var q, r := sum / 256, sum % 256;
    var w, c := (-(r + count)) / 256, (-(r + count)) % 256;
    assert -(r + count) == 256 * w + c;
    assert count + sum + c == 256 * (q - w);
  }

  // ---------- loading what was written ----------

  lemma HeaderParts(page: nat)
    requires page < 0x10000
    ensures var body := PageBody(page);
      |body| - 5 == body[0] && RecordOf(body) == Record(2, 0, [page / 256, page % 256])
  {
    var body := PageBody(page);
    assert body[4..6] == [page / 256, page % 256];
  }

  lemma SelectStep(s: string, hi: byte, lo: byte, rest: string, current: nat)
    requires ParseRecord(s) == Some((Record(2, 0, [hi, lo]), "\r\n" + rest))
    ensures Load(s, current) == Load(rest, Word(hi, lo))
  {
    var tail := "\r\n" + rest;
    assert tail[2..] == rest && tail[..2] == "\r\n";
  }

  lemma LoadHeader(page: nat, rest: string, current: nat)
    requires page < 0x10000
    ensures Load(PageHeader(page) + rest, current) == if page < 256 then Load(rest, page) else None
  {
    HeaderIsRecord(page);
    HeaderChecksum(page);
    HeaderParts(page);
    ParseText(PageBody(page), "\r\n" + rest);
    Reassociate(RecordText(PageBody(page)), "\r\n", rest);
    if page < 256 {
      SelectStep(PageHeader(page) + rest, page / 256, page % 256, rest, current);
      assert Word(page / 256, page % 256) == page;
    }
  }

  function Prepend(run: seq<Placed>, image: Option<seq<Placed>>): Option<seq<Placed>> {
    if image.None? then None else Some(run + image.value)
  }

  lemma DataParts(address: nat, data: seq<byte>)
    requires address < 0x10000 && |data| < 256
    ensures var body := DataBody(address, data);
      |body| - 5 == body[0] && RecordOf(body) == Record(0, address, data)
  {
    var body := DataBody(address, data);
    assert body[4..|body| - 1] == data;
    assert Word(address / 256, address % 256) == address;
  }

  lemma LoadStep(s: string, record: Record, rest: string, page: nat)
    requires ParseRecord(s) == Some((record, "\r\n" + rest)) && record.kind == 0
    ensures Load(s, page) == Prepend(PlaceRun(page, record.address, record.data), Load(rest, page))
  {
    var tail := "\r\n" + rest;
    assert tail[2..] == rest && tail[..2] == "\r\n";
  }

  lemma LoadData(address: nat, data: seq<byte>, rest: string, page: nat)
    requires address < 0x10000 && |data| < 256
    ensures Load(DataRecord(address, data) + rest, page)
      == Prepend(PlaceRun(page, address, data), Load(rest, page))
  {
    var body := DataBody(address, data);
    DataIsRecord(address, data);
    DataChecksum(address, data);
    DataParts(address, data);
    ParseText(body, "\r\n" + rest);
    Reassociate(RecordText(body), "\r\n", rest);
    LoadStep(DataRecord(address, data) + rest, Record(0, address, data), rest, page);
  }

  lemma {:induction false} LoadPage(data: seq<byte>, address: nat, rest: string, page: nat)
    requires address + |data| <= 0x10000
    ensures Load(PageText(data, address) + rest, page) == Prepend(PlaceRun(page, address, data), Load(rest, page))
    decreases |data|
  {
    if data == [] {
      assert PageText(data, address) + rest == rest;
      PrependNothing(Load(rest, page));
    } else {
      var k := Min(LINE, |data|);
      var next := PageText(data[k..], address + LINE);
      Reassociate(DataRecord(address, data[..k]), next, rest);
      LoadData(address, data[..k], next + rest, page);
      if k == LINE {
        LoadPage(data[k..], address + LINE, rest, page);
      } else {
        assert data[k..] == [] && next + rest == rest;
        PrependNothing(Load(rest, page));
      }
      PrependTwice(page, address, data, k, Load(rest, page));
    }
  }

  lemma PrependNothing(image: Option<seq<Placed>>)
    ensures Prepend([], image) == image
  {
    if image.Some? {
      assert [] + image.value == image.value;
    }
  }

  lemma PrependTwice(page: nat, address: nat, data: seq<byte>, k: nat, image: Option<seq<Placed>>)
    requires k == Min(LINE, |data|)
    ensures Prepend(PlaceRun(page, address, data[..k]), Prepend(PlaceRun(page, address + LINE, data[k..]), image))
      == Prepend(PlaceRun(page, address, data), image)
  {
    var a, b := PlaceRun(page, address, data[..k]), PlaceRun(page, address + LINE, data[k..]);
    assert a + b == PlaceRun(page, address, data);
    if image.Some? {
      assert a + (b + image.value) == (a + b) + image.value;
    }
  }

  /** Byte k of the buffer on its page: page k / 0x4000 at address 0x4000 + k mod 0x4000. */
  function PlaceFrom(page: nat, data: seq<byte>): (r: seq<Placed>)
    ensures |r| == |data|
  {
    seq(|data|, k requires 0 <= k < |data| => Placed(page + k / PAGE, BASE + k % PAGE, data[k]))
  }

  lemma PlaceFromSplit(page: nat, data: seq<byte>, k: nat)
    requires k == Min(PAGE, |data|)
    ensures PlaceRun(page, BASE, data[..k]) + PlaceFrom(page + 1, data[k..]) == PlaceFrom(page, data)
  {
    var whole, first, second := PlaceFrom(page, data), PlaceRun(page, BASE, data[..k]), PlaceFrom(page + 1, data[k..]);
    forall i | 0 <= i < |data| ensures whole[i] == (first + second)[i] {
      if i >= k {
        assert (i - PAGE) / PAGE == i / PAGE - 1 && (i - PAGE) % PAGE == i % PAGE;
      }
    }
  }

  lemma LoadEnd(page: nat)
    ensures Load(END_RECORD, page) == Some([])
  {
    var body: seq<byte> := [0, 0, 0, 1, 255];
    assert HexBytes(body) == "00000001FF" by {
      assert HexBytes([255]) == "FF" && HexBytes([1, 255]) == "01FF";
      assert HexBytes([0, 1, 255]) == "0001FF" && HexBytes([0, 0, 1, 255]) == "000001FF";
    }
    assert Sum(body) == 256 by {
      assert Sum([255]) == 255 && Sum([1, 255]) == 256 && Sum([0, 1, 255]) == 256 && Sum([0, 0, 1, 255]) == 256;
    }
    ParseText(body, "");
    assert RecordText(body) + "" == END_RECORD;
  }

  lemma {:induction false} LoadFrom(data: seq<byte>, page: nat, current: nat)
    requires page <= 256
    ensures Load(HexFrom(data, page), current)
      == if |data| <= (256 - page) * PAGE then Some(PlaceFrom(page, data)) else None
    decreases |data|
  {
    if data == [] {
      LoadEnd(current);
    } else {
      var k := Min(PAGE, |data|);
      var body, rest := PageText(data[..k], BASE), HexFrom(data[k..], page + 1);
      Reassociate(PageHeader(page), body, rest);
      LoadHeader(page, body + rest, current);
      if page < 256 {
        LoadPage(data[..k], BASE, rest, page);
        LoadFrom(data[k..], page + 1, page);
        PlaceFromSplit(page, data, k);
      }
    }
  }

  /** Loading the text intelhex writes gives the buffer back, each byte on its page and at its
      address, exactly when the buffer has at most 256 pages; beyond that the checksum of the
      page record is wrong and the file is refused. */
  lemma RoundTrip(data: seq<byte>)
    ensures Load(HexFrom(data, 0), 0) == if |data| <= 256 * PAGE then Some(PlaceFrom(0, data)) else None
  {
    LoadFrom(data, 0, 0);
  }

  // ---------- the length of the text ----------

  function CeilDiv(a: nat, b: nat): nat
    requires 0 < b
  {
    (a + b - 1) / b
  }

  /** Characters of the data records for n bytes. */
  function DataLength(n: nat): nat {
    77 * (n / 32) + (if n % 32 == 0 then 0 else 2 * (n % 32) + 13)
  }

  lemma HexPaddedLength(n: nat)
    requires n < 0x10000
    ensures |HexPadded(n, 4)| == 4
  {
    HexPadded4(n);
  }

  lemma DataRecordLength(address: nat, data: seq<byte>)
    requires address < 0x10000 && |data| < 256
    ensures |DataRecord(address, data)| == 13 + 2 * |data|
  {
    HexPadded2(|data|);
    HexPaddedLength(address);
    HexPadded2(Checksum(address, data));
  }

  lemma LineSplit(n: nat)
    ensures n >= LINE ==> DataLength(n) == 77 + DataLength(n - LINE)
    ensures 0 < n < LINE ==> DataLength(n) == 2 * n + 13
  {
    if n >= LINE {
      assert (n - 32) / 32 == n / 32 - 1 && (n - 32) % 32 == n % 32;
    }
  }

  lemma {:induction false} PageTextLength(data: seq<byte>, address: nat)
    requires address + |data| <= 0x10000
    ensures |PageText(data, address)| == DataLength(|data|)
    decreases |data|
  {
    if data != [] {
      var k := Min(LINE, |data|);
      DataRecordLength(address, data[..k]);
      LineSplit(|data|);
      if k == LINE {
        PageTextLength(data[k..], address + LINE);
      } else {
        assert data[k..] == [];
      }
    }
  }

  lemma {:induction false} HexFromLength(data: seq<byte>, page: nat)
    requires page * PAGE + |data| <= 0x10000 * PAGE
    ensures |HexFrom(data, page)| == DataLength(|data|) + 17 * CeilDiv(|data|, PAGE) + 11
    decreases |data|
  {
    if data != [] {
      var k := Min(PAGE, |data|);
      HexPaddedLength(page);
      HexPadded2(Negate(4 + page));
      PageTextLength(data[..k], BASE);
      assert |PageHeader(page)| == 17;
      if k == PAGE {
        HexFromLength(data[k..], page + 1);
        PageSplit(|data|);
      } else {
        assert data[k..] == [];
        assert CeilDiv(|data|, PAGE) == 1;
      }
    }
  }

  lemma PageSplit(n: nat)
    requires n >= PAGE
    ensures DataLength(n) == DataLength(PAGE) + DataLength(n - PAGE)
    ensures CeilDiv(n, PAGE) == 1 + CeilDiv(n - PAGE, PAGE)
  {
    assert n / 32 == 512 + (n - PAGE) / 32 && n % 32 == (n - PAGE) % 32;
    assert DataLength(PAGE) == 77 * 512;
  }
}
