/** The growing byte queue CBuffer: an array that is reallocated, filled, shifted and cut in place. */
module CallBuffer {
  import opened Bytes

  // ---------------------------------------------------------------- capacities

  /** Room for n bytes, in blocks: the block mask is coarser by 1024 than the block size added. */
  function Blocks(n: nat): (capacity: nat)
    ensures n + 1024 <= capacity <= n + 2047 && capacity % 1024 == 0
  {
    (n + 2048 - 1) / 1024 * 1024
  }

  const LARGE: nat := 0x80000
  const SHRUNK: nat := 0x40000

  /** Capacity after making sure that needed bytes fit, as Add and Insert do it. */
  function Fitted(capacity: nat, needed: nat): (r: nat)
    ensures needed <= r
    ensures r > capacity ==> needed > capacity && needed + 1024 <= r <= needed + 2047 && r % 1024 == 0
    ensures r < capacity <==> capacity > 524288 && needed < 262144
    ensures r < capacity ==> r == 262144
  {
    if needed > capacity then Blocks(needed)
    else if capacity > LARGE && needed < SHRUNK then SHRUNK
    else capacity
  }

  // ---------------------------------------------------------------- reversal

  predicate Bytewise(s: string) { forall i | 0 <= i < |s| :: s[i] < 256 as char }

  function Reversed(s: string): (r: string)
    ensures |r| == |s|
  {
    if s == "" then "" else Reversed(s[1..]) + [s[0]]
  }

  lemma {:induction false} ReversedAt(s: string, k: nat)
    requires k < |s|
    ensures Reversed(s)[k] == s[|s| - 1 - k]
  {
    if k < |s| - 1 { ReversedAt(s[1..], k); }
  }

  lemma {:induction false} ReversedTwice(s: string)
    ensures Reversed(Reversed(s)) == s
  {
    forall k | 0 <= k < |s| ensures Reversed(Reversed(s))[k] == s[k] {
      ReversedAt(Reversed(s), k);
      ReversedAt(s, |s| - 1 - k);
    }
  }

  /** The 32-bit word that a little-endian machine loads from four bytes. */
  function Load(a: char, b: char, c: char, d: char): (w: nat)
    requires Bytewise([a, b, c, d])
    ensures w < 0x1_0000_0000
  {
    assert [a, b, c, d][0] == a && [a, b, c, d][1] == b && [a, b, c, d][2] == c && [a, b, c, d][3] == d;
    a as int + 0x100 * (b as int) + 0x10000 * (c as int) + 0x1000000 * (d as int)
  }

  /** Byte k of a stored word. */
  function Store(w: nat, k: nat): (c: char)
    requires k < 4
    ensures c < 256 as char
  {
    (w / (if k == 0 then 1 else if k == 1 then 0x100 else if k == 2 then 0x10000 else 0x1000000) % 256) as char
  }

  /** SWAP_LONG: the masks and shifts, as arithmetic. */
  function SwapLong(w: nat): (r: nat)
    requires w < 0x1_0000_0000
    ensures r < 0x1_0000_0000
  {
    w / 0x1000000 % 256 + w / 0x10000 % 256 * 0x100 + w / 0x100 % 256 * 0x10000 + w % 256 * 0x1000000
  }

  lemma Bytes4(w: nat, a: nat, b: nat, c: nat, d: nat)
    requires a < 256 && b < 256 && c < 256 && d < 256
    requires w == a + 0x100 * b + 0x10000 * c + 0x1000000 * d
    ensures w % 256 == a && w / 0x100 % 256 == b && w / 0x10000 % 256 == c && w / 0x1000000 % 256 == d
  {
    DivMod(w, 0x100, b + 0x100 * c + 0x10000 * d, a);
    DivMod(w, 0x10000, c + 0x100 * d, a + 0x100 * b);
    DivMod(w, 0x1000000, d, a + 0x100 * b + 0x10000 * c);
    DivMod(w / 0x100, 0x100, c + 0x100 * d, b);
    DivMod(w / 0x10000, 0x100, d, c);
  }

  lemma DivMod(x: nat, m: nat, q: nat, r: nat)
    requires x == q * m + r && r < m
    ensures x / m == q && x % m == r
  {
    DivUnique(x, m, q);
  }

  lemma SwapReverses(a: char, b: char, c: char, d: char)
    requires Bytewise([a, b, c, d])
    ensures var w := SwapLong(Load(a, b, c, d)); Store(w, 0) == d && Store(w, 1) == c && Store(w, 2) == b && Store(w, 3) == a
  {
    assert [a, b, c, d][0] == a && [a, b, c, d][1] == b && [a, b, c, d][2] == c && [a, b, c, d][3] == d;
    Bytes4(Load(a, b, c, d), a as int, b as int, c as int, d as int);
    SwapValue(Load(a, b, c, d), a as int, b as int, c as int, d as int);
    Bytes4(SwapLong(Load(a, b, c, d)), d as int, c as int, b as int, a as int);
  }

  lemma SwapValue(w: nat, a: nat, b: nat, c: nat, d: nat)
    requires w < 0x1_0000_0000 && w % 256 == a && w / 0x100 % 256 == b && w / 0x10000 % 256 == c && w / 0x1000000 % 256 == d
    ensures SwapLong(w) == d + 0x100 * c + 0x10000 * b + 0x1000000 * a
  {}

  /** CBuffer::ReverseBuffer: four bytes at a time while more than four are left, then one at a time. */
  method ReverseBuffer(input: string, output: array<char>, start: nat)
    requires Bytewise(input) && start + |input| <= output.Length
    modifies output
    ensures output[start..start + |input|] == Reversed(input)
    ensures output[..start] == old(output[..start])
    ensures output[start + |input|..] == old(output[start + |input|..])
  {
    var left, at := |input|, start;
    while left > 4
      invariant 0 <= left <= |input| && at == start + (|input| - left)
      invariant forall k | start <= k < at :: output[k] == input[|input| - 1 - (k - start)]
      invariant output[..start] == old(output[..start])
      invariant output[start + |input|..] == old(output[start + |input|..])
    {
      var i := left - 4;
      var word := Load(input[i], input[i + 1], input[i + 2], input[i + 3]);
      var swapped := SwapLong(word);
      SwapReverses(input[i], input[i + 1], input[i + 2], input[i + 3]);
      hide Load, Store, SwapLong;
      output[at] := Store(swapped, 0);
      output[at + 1] := Store(swapped, 1);
      output[at + 2] := Store(swapped, 2);
      output[at + 3] := Store(swapped, 3);
      at := at + 4;
      left := left - 4;
    }
    while left > 0
      invariant 0 <= left <= |input| && at == start + (|input| - left)
      invariant forall k | start <= k < at :: output[k] == input[|input| - 1 - (k - start)]
      invariant output[..start] == old(output[..start])
      invariant output[start + |input|..] == old(output[start + |input|..])
    {
      output[at] := input[left - 1];
      at := at + 1;
      left := left - 1;
    }
    ReversedIs(input, output[start..start + |input|]);
  }

  lemma ReversedIs(s: string, r: string)
    requires |r| == |s| && forall k | 0 <= k < |r| :: r[k] == s[|s| - 1 - k]
    ensures r == Reversed(s)
  {
    forall k | 0 <= k < |s| ensures r[k] == Reversed(s)[k] { ReversedAt(s, k); }
  }

  // ---------------------------------------------------------------- lines

  /** Position of the first line feed, or the length. */
  function LineEnd(s: string): (e: nat)
    ensures e <= |s| && (e < |s| ==> s[e] == '\n') && forall i | 0 <= i < e :: s[i] != '\n'
  {
    if s == "" || s[0] == '\n' then 0 else 1 + LineEnd(s[1..])
  }

  /** The text before the last carriage return, or all of it. */
  function CutReturn(line: string): (r: string)
    ensures r <= line
    ensures r != line ==> line[|r|] == '\r'
    ensures forall i | |r| < i < |line| :: line[i] != '\r'
    ensures r == line ==> '\r' !in line
    decreases |line|
  {
    CutAt(line, |line|)
  }

  function CutAt(line: string, n: nat): (r: string)
    requires n <= |line| && forall i | n <= i < |line| :: line[i] != '\r'
    ensures r <= line
    ensures r != line ==> line[|r|] == '\r'
    ensures forall i | |r| < i < |line| :: line[i] != '\r'
    ensures r == line ==> '\r' !in line
    decreases n
  {
    if n == 0 then line else if line[n - 1] == '\r' then line[..n - 1] else CutAt(line, n - 1)
  }

  // ---------------------------------------------------------------- transfers

  const TEMP_BUFFER: nat := 1024

  /** Bytes offered to one transfer call of a connection or pipe; an exact multiple of 2^20 offers none. */
  function Offer(left: nat): (n: nat)
    ensures n <= left && n <= 1024 && n <= left % 0x100000 && (n == 0 <==> left % 0x100000 == 0)
    ensures n == 1024 || n == left % 1048576
  {
    if left % 0x100000 < TEMP_BUFFER then left % 0x100000 else TEMP_BUFFER
  }

  // ---------------------------------------------------------------- memory moves

  /** MoveMemory to a higher address in the same block. */
  method MoveUp(block: array<char>, from: nat, to: nat, shift: nat)
    requires from <= to && to + shift <= block.Length
    modifies block
    ensures block[..from] == old(block[..from])
    ensures block[from + shift..to + shift] == old(block[from..to])
  {
    forall i | from <= i < to { block[i + shift] := block[i]; }
    ghost var moved, was := block[from + shift..to + shift], old(block[from..to]);
    assert forall k | 0 <= k < to - from :: moved[k] == was[k];
  }

  /** CopyMemory from outside the block. */
  method Copy(block: array<char>, at: nat, x: string)
    requires at + |x| <= block.Length
    modifies block
    ensures block[..at] == old(block[..at])
    ensures block[at..at + |x|] == x
    ensures block[at + |x|..] == old(block[at + |x|..])
  {
    forall i | 0 <= i < |x| { block[at + i] := x[i]; }
  }

  lemma TailMoves(before: string, after: string, at: nat, end: nat)
    requires |before| == |after| && at <= end <= |after| && after[at..] == before[at..]
    ensures after[at..end] == before[at..end]
  {
    assert after[at..end] == after[at..][..end - at];
    assert before[at..end] == before[at..][..end - at];
  }

  lemma InsertShape(block: string, z: string, was: string, offset: nat, x: string)
    requires offset <= |was| && |was| + |x| <= |block| && z == block[..|was| + |x|]
    requires block[..offset] == was[..offset] && block[offset..offset + |x|] == x
    requires block[offset + |x|..|was| + |x|] == was[offset..]
    ensures z == was[..offset] + x + was[offset..]
  {
    assert z == block[..offset] + block[offset..offset + |x|] + block[offset + |x|..|was| + |x|];
  }

  // ---------------------------------------------------------------- the buffer

  class Buffer {
    var data: array<char>
    var length: nat

    ghost predicate Valid()
      reads this
    {
      length <= data.Length
    }

    ghost function Contents(): (s: string)
      requires Valid()
      reads this, data
      ensures |s| == length
    {
      data[..length]
    }

    constructor ()
      ensures Valid() && fresh(data) && Contents() == ""
    {
      data := new char[0];
      length := 0;
    }

    /** realloc: a block of another size, with the bytes in use copied over. */
    method Reallocate(capacity: nat)
      requires Valid() && length <= capacity
      modifies this`data
      ensures Valid() && fresh(data) && data.Length == capacity && Contents() == old(Contents())
    {
      var block := new char[capacity];
      forall i | 0 <= i < length { block[i] := data[i]; }
      assert block[..length] == data[..length];
      data := block;
    }

    /** Growing and shrinking before n more bytes are stored. */
    method Fit(n: nat)
      requires Valid()
      modifies this`data
      ensures Valid() && (fresh(data) || data == old(data)) && Contents() == old(Contents())
      ensures data.Length == Fitted(old(data.Length), length + n)
    {
      if length + n > data.Length {
        Reallocate(Blocks(length + n));
      } else if data.Length > LARGE && length + n < SHRUNK {
        Reallocate(SHRUNK);
      }
    }

    method Add(x: string)
      requires Valid()
      modifies this, data
      ensures Valid() && (fresh(data) || data == old(data))
      ensures Contents() == old(Contents()) + x
      ensures data.Length == Fitted(old(data.Length), old(length) + |x|)
    {
      Fit(|x|);
      forall i | 0 <= i < |x| { data[length + i] := x[i]; }
      length := length + |x|;
      assert Contents()[..old(length)] == old(Contents());
    }

    method Insert(offset: nat, x: string)
      requires Valid() && offset <= length
      modifies this, data
      ensures Valid() && (fresh(data) || data == old(data))
      ensures Contents() == old(Contents())[..offset] + x + old(Contents())[offset..]
      ensures data.Length == Fitted(old(data.Length), old(length) + |x|)
    {
      Fit(|x|);
      MoveUp(data, offset, length, |x|);
      label Filling:
      Copy(data, offset, x);
      length := length + |x|;
      TailMoves(old@Filling(data[..]), data[..], offset + |x|, length);
      InsertShape(data[..], Contents(), old(Contents()), offset, x);
    }

    /** Drop n bytes from the front; more than there are is ignored. */
    method Remove(n: nat)
      requires Valid()
      modifies this`length, data
      ensures Valid()
      ensures Contents() == Dropped(old(Contents()), n)
    {
      if n > length || n == 0 { return; }
      ghost var was := Contents();
      length := length - n;
      forall i | 0 <= i < length { data[i] := data[n + i]; }
      assert Contents() == was[n..];
    }

    method Clear()
      requires Valid()
      modifies this`length
      ensures Valid() && Contents() == ""
    {
      length := 0;
    }

    /** Move, or copy, up to n bytes from the front of another buffer; a limit past its length takes all. */
    method AddBuffer(other: Buffer, limit: nat, peek: bool) returns (n: nat)
      requires Valid() && other.Valid() && other != this && other.data != data
      modifies this, data, other`length, other.data
      ensures Valid() && other.Valid() && (fresh(data) || data == old(data))
      ensures n == if limit < |old(other.Contents())| then limit else |old(other.Contents())|
      ensures Contents() == old(Contents()) + old(other.Contents())[..n]
      ensures other.Contents() == if peek then old(other.Contents()) else old(other.Contents())[n..]
      ensures data.Length == Fitted(old(data.Length), old(length) + n)
    {
      n := if limit < other.length then limit else other.length;
      assert other.data[..n] == other.Contents()[..n];
      Add(other.data[..n]);
      if !peek { other.Remove(n); }
    }

    method Prefix(x: string)
      requires Valid()
      modifies this, data
      ensures Valid() && (fresh(data) || data == old(data))
      ensures Contents() == x + old(Contents())
      ensures data.Length == Fitted(old(data.Length), old(length) + |x|)
    {
      Insert(0, x);
      assert "" + x + old(Contents()) == x + old(Contents());
    }

    method EnsureBuffer(n: nat)
      requires Valid()
      modifies this`data
      ensures Valid() && (fresh(data) || data == old(data)) && Contents() == old(Contents())
      ensures data.Length == if old(data.Length) - length >= n then old(data.Length) else Blocks(length + n)
    {
      if data.Length - length >= n { return; }
      Reallocate(Blocks(length + n));
    }

    method AddReversed(x: string)
      requires Valid() && Bytewise(x)
      modifies this, data
      ensures Valid() && (fresh(data) || data == old(data))
      ensures Contents() == old(Contents()) + Reversed(x)
    {
      EnsureBuffer(|x|);
      ReverseBuffer(x, data, length);
      assert data[..length] == old(Contents());
      length := length + |x|;
      assert Contents() == data[..old(length)] + data[old(length)..length];
    }

    /** ReadLine without removing: the text of the first complete line. */
    method PeekLine() returns (found: bool, line: string)
      requires Valid()
      ensures found == (LineEnd(Contents()) < length)
      ensures line == if found then CutReturn(Contents()[..LineEnd(Contents())]) else ""
    {
      found, line := false, "";
      var n := 0;
      while n < length
        invariant n <= length && n <= LineEnd(Contents())
      {
        if data[n] == '\n' { break; }
        n := n + 1;
      }
      if n >= length { return; }
      found, line := true, CutReturn(data[..n]);
      assert Contents()[..n] == data[..n];
    }

    /** ReadLine: the line and its line feed leave the buffer. */
    method ReadLine() returns (found: bool, line: string)
      requires Valid()
      modifies this`length, data
      ensures Valid()
      ensures found == (LineEnd(old(Contents())) < |old(Contents())|)
      ensures line == if found then CutReturn(old(Contents())[..LineEnd(old(Contents()))]) else ""
      ensures Contents() == if found then old(Contents())[LineEnd(old(Contents())) + 1..] else old(Contents())
    {
      found, line := PeekLine();
      if found {
        var n := 0;
        while data[n] != '\n'
          invariant n < length && n <= LineEnd(Contents())
          decreases length - n
        {
          n := n + 1;
        }
        Remove(n + 1);
      }
    }

    method StartsWith(text: string, remove: bool) returns (yes: bool)
      requires Valid()
      modifies this`length, data
      ensures Valid() && yes == (text <= old(Contents()))
      ensures Contents() == if yes && remove then old(Contents())[|text|..] else old(Contents())
    {
      if length < |text| { return false; }
      yes := data[..|text|] == text;
      assert data[..|text|] == Contents()[..|text|];
      if yes && remove { Remove(|text|); }
    }
  }

  function Dropped(s: string, n: nat): (r: string)
    ensures |r| == |s| - (if n <= |s| then n else 0)
  {
    if n <= |s| then s[n..] else s
  }
}
