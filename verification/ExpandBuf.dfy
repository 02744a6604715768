/** The expandable buffer: doubling growth, insertion with a shifted tail, overwriting. */
module ExpandBuf {
  import opened Bytes

  /** strncpy: the text up to its end, then zeros to the requested length. Texts hold no zero byte. */
  function Strncpy(text: seq<byte>, length: nat): (r: seq<byte>)
    ensures |r| == length
  {
    if length <= |text| then text[..length] else text + seq(length - |text|, _ => 0)
  }

  function InsertAt(s: seq<byte>, at: nat, t: seq<byte>): (r: seq<byte>)
    requires at <= |s|
    ensures |r| == |s| + |t|
  {
    s[..at] + t + s[at..]
  }

  /** One call of eb_insert on the contents: where it inserts and how many bytes. */
  datatype Insertion = Insertion(offset: int, text: seq<byte>, length: int)

  function Length(i: Insertion): nat {
    if i.length < 0 then |i.text| else i.length
  }

  predicate Fits(s: seq<byte>, i: Insertion) {
    -1 <= i.offset <= |s| && -1 <= i.length
  }

  function Inserted(s: seq<byte>, i: Insertion): (r: seq<byte>)
    requires Fits(s, i)
  {
    InsertAt(s, if i.offset == -1 then |s| else i.offset, Strncpy(i.text, Length(i)))
  }

  lemma ThreePieces(s: seq<byte>, at: nat, n: nat)
    requires at + n <= |s|
    ensures s == s[..at] + s[at..at + n] + s[at + n..]
  {
  }

  lemma Within(s: seq<byte>, at: nat, n: nat, end: nat)
    requires at + n <= end <= |s|
    ensures s[..end][..at] == s[..at] && s[..end][at..at + n] == s[at..at + n] && s[..end][at + n..] == s[at + n..end]
  {
  }

  /** The size after doubling it until it is enough. */
  function Doubled(size: nat, needed: nat): (r: nat)
    requires size > 0
    ensures r >= needed && r >= size && (r == size || r < 2 * needed)
    decreases needed - size
  {
    if needed <= size then size else Doubled(2 * size, needed)
  }

  class Buffer {
    var start: array<byte>
    var end: nat

    ghost predicate Valid()
      reads this
    {
      end <= start.Length
    }

    ghost function Contents(): seq<byte>
      reads this, start
      requires Valid()
    {
      start[..end]
    }

    /** eb_init: -1 stands for 64. */
    constructor (initSize: int)
      requires initSize >= -1
      ensures Valid() && Contents() == [] && fresh(start)
      ensures start.Length == if initSize == -1 then 64 else initSize
    {
      var size := if initSize == -1 then 64 else initSize;
      start := new byte[size];
      end := 0;
    }

    /** The part of eb_insert that makes room: the size doubles until the text fits, and realloc
        carries the bytes over. A size of zero would double for ever. */
    method MakeRoom(length: nat)
      requires Valid() && (start.Length > 0 || length == 0)
      modifies this
      ensures Valid() && Contents() == old(Contents()) && end == old(end)
      ensures end + length <= start.Length
      ensures start == old(start) || fresh(start)
      ensures old(start.Length) > 0 ==> start.Length == Doubled(old(start.Length), end + length)
    {
      if end + length > start.Length {
        var size := start.Length;
        while end + length > size
          invariant size >= start.Length > 0
          invariant Doubled(size, end + length) == Doubled(start.Length, end + length)
          decreases end + length - size
        {
          size := size * 2;
        }
        var grown := new byte[size];
        forall i | 0 <= i < end {
          grown[i] := start[i];
        }
        assert grown[..end] == start[..end];
        start := grown;
      }
    }

    /** eb_insert; the returned offset of an append (-1) is one less than the length. */
    method Insert(offset: int, text: seq<byte>, length: int) returns (next: int)
      requires Valid() && Fits(Contents(), Insertion(offset, text, length))
      requires start.Length > 0 || Length(Insertion(offset, text, length)) == 0
      modifies this, start
      ensures Valid() && Contents() == Inserted(old(Contents()), Insertion(offset, text, length))
      ensures start == old(start) || fresh(start)
      ensures var n := Length(Insertion(offset, text, length)); next == if n == 0 then 0 else offset + n
      ensures old(start.Length) > 0 ==> start.Length >= old(start.Length)
    {
      ghost var before := Contents();
      var ptr: nat := if offset == -1 then end else offset;
      var n: nat := if length == -1 then |text| else length;
      if n == 0 {
        assert before[..ptr] + [] + before[ptr..] == before;
        return 0;
      }
      MakeRoom(n);
      InsertRoomed(ptr, text, n);
      return offset + n;
    }

    /** The text goes in once there is room for it. */
    method InsertRoomed(ptr: nat, text: seq<byte>, n: nat)
      requires Valid() && ptr <= end && end + n <= start.Length && n > 0
      modifies this`end, start
      ensures Valid() && Contents() == InsertAt(old(Contents()), ptr, Strncpy(text, n))
    {
      OpenGap(ptr, n);
      PutText(ptr, text, n, end + n);
      end := end + n;
      ThreePieces(start[..end], ptr, n);
      assert start[..end][..ptr] == start[..ptr];
    }

    /** The tail is moved when the text does not go to the very end. */
    method OpenGap(ptr: nat, n: nat)
      requires Valid() && ptr <= end && end + n <= start.Length && n > 0
      modifies start
      ensures start[..ptr] == old(Contents())[..ptr] && start[ptr + n..end + n] == old(Contents())[ptr..]
    {
      ghost var before := Contents();
      if ptr < end {
        ShiftTail(ptr, n);
      }
      assert before[ptr..] == old(start[ptr..end]);
    }

    /** strncpy into the buffer. */
    method PutText(ptr: nat, text: seq<byte>, n: nat, ghost limit: nat)
      requires ptr + n <= limit <= start.Length
      modifies start
      ensures start[..ptr] == old(start[..ptr]) && start[ptr..ptr + n] == Strncpy(text, n)
      ensures start[ptr + n..limit] == old(start[ptr + n..limit])
    {
      var copied := Strncpy(text, n);
      forall i | 0 <= i < n {
        start[ptr + i] := copied[i];
      }
    }

    /** The backward copy: the last byte moves first, so nothing is lost where the ranges overlap. */
    method ShiftTail(ptr: nat, n: nat)
      requires ptr < end && end + n <= start.Length && n > 0
      modifies start
      ensures start[..ptr] == old(start[..ptr])
      ensures start[ptr + n..end + n] == old(start[ptr..end])
    {
      var curr := end;
      while curr > ptr
        invariant ptr <= curr <= end
        invariant start[..curr] == old(start[..curr])
        invariant start[curr + n..end + n] == old(start[curr..end])
      {
        curr := curr - 1;
        ghost var moved, rest := start[curr], start[curr + 1 + n..end + n];
        start[curr + n] := start[curr];
        assert start[curr + n..end + n] == [moved] + rest;
        assert old(start[curr..end]) == [old(start[curr])] + old(start[curr + 1..end]);
        assert start[..curr] == old(start[..curr + 1])[..curr];
      }
    }

    /** eb_append. */
    method Append(text: seq<byte>, length: int) returns (next: int)
      requires Valid() && -1 <= length
      requires start.Length > 0 || Length(Insertion(-1, text, length)) == 0
      modifies this, start
      ensures Valid() && Contents() == old(Contents()) + Strncpy(text, if length == -1 then |text| else length)
      ensures start == old(start) || fresh(start)
      ensures old(start.Length) > 0 ==> start.Length >= old(start.Length)
    {
      ghost var before := Contents();
      ghost var copied := Strncpy(text, if length == -1 then |text| else length);
      assert before[..|before|] + copied + before[|before|..] == before + copied;
      next := Insert(-1, text, length);
    }

    /** eb_overwrite, within the contents. */
    method Overwrite(offset: nat, text: seq<byte>, length: int)
      requires Valid() && -1 <= length
      requires offset + Length(Insertion(offset, text, length)) <= end
      modifies start
      ensures var t := Strncpy(text, Length(Insertion(offset, text, length)));
        Contents() == old(Contents())[..offset] + t + old(Contents())[offset + |t|..]
    {
      var n: nat := if length == -1 then |text| else length;
      ghost var before := start[..];
      PutText(offset, text, n, end);
      ThreePieces(start[..end], offset, n);
      Within(before, offset, n, end);
      Within(start[..], offset, n, end);
    }

    /** eb_extract. */
    method Extract() returns (text: seq<byte>)
      requires Valid()
      ensures text == Contents()
    {
      text := start[..end];
    }

    /** Any run of insertions does to the contents what it does to a sequence. */
    method InsertAll(run: seq<Insertion>)
      requires Valid() && start.Length > 0 && AllFit(Contents(), run)
      modifies this, start
      ensures Valid() && Contents() == InsertedAll(old(Contents()), run)
      decreases |run|
    {
      if run != [] {
        var _ := Insert(run[0].offset, run[0].text, run[0].length);
        InsertAll(run[1..]);
      }
    }
  }

  ghost predicate AllFit(s: seq<byte>, run: seq<Insertion>)
    decreases |run|
  {
    run == [] || (Fits(s, run[0]) && AllFit(Inserted(s, run[0]), run[1..]))
  }

  ghost function InsertedAll(s: seq<byte>, run: seq<Insertion>): seq<byte>
    requires AllFit(s, run)
    decreases |run|
  {
    if run == [] then s else InsertedAll(Inserted(s, run[0]), run[1..])
  }
}
