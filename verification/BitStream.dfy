/** A stream of bits kept in a list of byte buffers. */
module BitStream {
  import opened Options
  import opened Bits

  type Byte = x: nat | x < 256

  /** The payload of one buffer: 32 blocks of 12 bytes, less a pointer and an int. */
  const PAYLOAD_SIZE: nat := 376

  // ---------------------------------------------------------------- bytes and bits

  function BitsOf(bytes: seq<Byte>): (s: seq<bool>)
    ensures |s| == 8 * |bytes|
  {
    if bytes == [] then [] else BitsOf(bytes[..|bytes| - 1]) + ToBits(bytes[|bytes| - 1], 8)
  }

  lemma {:induction false} BitsOfAppend(bytes: seq<Byte>, b: Byte)
    ensures BitsOf(bytes + [b]) == BitsOf(bytes) + ToBits(b, 8)
  {
    assert (bytes + [b])[..|bytes|] == bytes;
  }

  lemma Slices(s: seq<bool>, t: seq<bool>, i: nat, j: nat)
    requires i <= j <= |s|
    ensures (s + t)[i..j] == s[i..j] && (s + t)[|s|..] == t
  {
  }

  /** The bits of the k-th byte. */
  lemma {:induction false} BitsOfAt(bytes: seq<Byte>, k: nat)
    requires k < |bytes|
    ensures BitsOf(bytes)[8 * k..8 * k + 8] == ToBits(bytes[k], 8)
  {
    var n := |bytes| - 1;
    var s, t := BitsOf(bytes[..n]), ToBits(bytes[n], 8);
    if k < n {
      BitsOfAt(bytes[..n], k);
      Slices(s, t, 8 * k, 8 * k + 8);
    } else {
      Slices(s, t, 0, 0);
      assert (s + t)[8 * k..8 * k + 8] == (s + t)[|s|..];
    }
  }

  /** The `insert` bits w go right behind those already in byte b, and the rest of it stays clear. */
  lemma {:induction false} InsertedBits(b: Byte, w: nat, avail: nat, insert: nat)
    requires insert <= avail <= 8 && Low(b, avail) == 0 && w < Pow2(insert)
    ensures ShiftLeft(w, avail - insert) < 256
    ensures Or(b, ShiftLeft(w, avail - insert)) < 256 && Low(Or(b, ShiftLeft(w, avail - insert)), avail - insert) == 0
    ensures ToBits(Or(b, ShiftLeft(w, avail - insert)), 8)[..8 - avail + insert] == ToBits(b, 8)[..8 - avail]
              + ToBits(w, insert)
  {
    var h := ShiftRight(b, avail);
    var x := ShiftLeft(h, insert) + w;
    InsertedValue(b, w, avail, insert, h);
    ShiftBack(x, 0, avail - insert);
    ShiftBack(h, w, insert);
    BitsAppended(b, h, x, avail, insert, w);
  }

  lemma {:induction false} BitsAppended(b: nat, h: nat, x: nat, avail: nat, insert: nat, w: nat)
    requires insert <= avail <= 8 && h == ShiftRight(b, avail) && w == Low(x, insert) && h == ShiftRight(x, insert)
    requires x == ShiftRight(ShiftLeft(x, avail - insert), avail - insert)
    ensures ToBits(ShiftLeft(x, avail - insert), 8)[..8 - avail + insert] == ToBits(b, 8)[..8 - avail]
              + ToBits(w, insert)
  {
    var k := avail - insert;
    ToBitsSplits(ShiftLeft(x, k), 8 - k, k);
    ToBitsSplits(x, 8 - avail, insert);
    ToBitsSplits(b, 8 - avail, avail);
    ToBitsOfLow(x, insert);
  }

  lemma {:induction false} InsertedValue(b: Byte, w: nat, avail: nat, insert: nat, h: nat)
    requires insert <= avail <= 8 && Low(b, avail) == 0 && w < Pow2(insert) && h == ShiftRight(b, avail)
    ensures ShiftLeft(w, avail - insert) < 256
    ensures Or(b, ShiftLeft(w, avail - insert)) == ShiftLeft(ShiftLeft(h, insert) + w, avail - insert) < 256
  {
    OrShifted(b, w, insert, avail - insert);
    HighBound(b, avail);
  }

  lemma {:induction false} OrShifted(b: nat, w: nat, insert: nat, k: nat)
    requires Low(b, insert + k) == 0 && w < Pow2(insert)
    ensures ShiftLeft(w, k) < Pow2(insert + k) && b == ShiftLeft(ShiftRight(b, insert + k), insert + k)
    ensures Or(b, ShiftLeft(w, k)) == ShiftLeft(ShiftLeft(ShiftRight(b, insert + k), insert) + w, k)
              == b + ShiftLeft(w, k)
  {
    var h := ShiftRight(b, insert + k);
    ShiftLeftSmall(w, insert, k);
    HighAndLow(b, insert + k);
    OrAdds(h, insert + k, ShiftLeft(w, k));
    ShiftLeftAdds(ShiftLeft(h, insert), w, k);
    ShiftLeftTwice(h, insert, k);
  }

  lemma MaskedByte(v: nat, n: nat)
    ensures And(v, ShiftLeft(1, n) - 1) == Low(v, n)
  {
    OneShifted(n);
    Masked(v, n);
  }

  lemma HighBound(b: Byte, avail: nat)
    requires avail <= 8
    ensures ShiftLeft(ShiftRight(b, avail), avail) + Pow2(avail) <= 256
  {
    Power8();
    ShiftRightSmall(b, 8 - avail, avail);
    ShiftLeftSmall(ShiftRight(b, avail), 8 - avail, avail);
  }

  lemma Power8()
    ensures Pow2(8) == 256
  {
    assert Pow2(4) == 16;
    assert Pow2(6) == 64;
  }

  /** The n bits of b that start i bits from the top of its i + n + k bits. */
  lemma {:induction false} ExtractedBits(b: nat, i: nat, n: nat, k: nat)
    ensures Low(ShiftRight(b, k), n) == FromBits(ToBits(b, i + (n + k))[i..i + n])
  {
    ThereAndBack(ShiftRight(b, k), n);
    SliceOfByte(b, i, n, k);
  }

  lemma {:induction false} SliceOfByte(b: nat, i: nat, n: nat, k: nat)
    ensures ToBits(b, i + (n + k))[i..i + n] == ToBits(ShiftRight(b, k), n)
  {
    ToBitsSplits(b, i, n + k);
    ToBitsSplits(b, n, k);
  }

  // ---------------------------------------------------------------- steps of a write and of a read

  /** The bits written so far: all but the last `avail` bits of the bytes. */
  function WrittenBits(bytes: seq<Byte>, avail: nat): seq<bool>
    requires avail <= 8 * |bytes|
  {
    BitsOf(bytes)[..8 * |bytes| - avail]
  }

  lemma {:induction false} FreshByte(bytes: seq<Byte>)
    ensures WrittenBits(bytes + [0], 8) == WrittenBits(bytes, 0)
    ensures Low(0, 8) == 0
  {
    BitsOfAppend(bytes, 0);
    LowOfZero(8);
  }

  lemma {:induction false} LowOfZero(n: nat)
    ensures Low(0, n) == 0
  {
    if n > 0 { LowOfZero(n - 1); }
  }

  /** One group of bits goes into the last byte. */
  lemma {:induction false} WriteStep(bytes: seq<Byte>, w: nat, avail: nat, insert: nat, shifted: nat, b: nat)
    requires bytes != [] && insert <= avail <= 8 && Low(bytes[|bytes| - 1], avail) == 0 && w < Pow2(insert)
    requires shifted == ShiftLeft(w, avail - insert) && b == Or(bytes[|bytes| - 1], shifted)
    ensures shifted < 256 && b < 256 && Low(b, avail - insert) == 0
    ensures WrittenBits(bytes[|bytes| - 1 := b], avail - insert) == WrittenBits(bytes, avail) + ToBits(w, insert)
  {
    InsertedBits(bytes[|bytes| - 1], w, avail, insert);
    LastReplaced(bytes, b, avail, insert, ToBits(bytes[|bytes| - 1], 8), ToBits(b, 8), ToBits(w, insert));
  }

  lemma {:induction false} LastReplaced(bytes: seq<Byte>, b: Byte, avail: nat, insert: nat, t: seq<bool>, t': seq<bool>,
      u: seq<bool>)
    requires bytes != [] && insert <= avail <= 8 && |u| == insert && |t| == |t'| == 8
    requires t == ToBits(bytes[|bytes| - 1], 8) && t' == ToBits(b, 8) && t'[..8 - avail + insert] == t[..8 - avail] + u
    ensures WrittenBits(bytes[|bytes| - 1 := b], avail - insert) == WrittenBits(bytes, avail) + u
  {
    var init := bytes[..|bytes| - 1];
    AsAppended(bytes, bytes[|bytes| - 1], t);
    AsAppended(bytes[|bytes| - 1 := b], b, t');
    assert bytes[|bytes| - 1 := b][..|bytes| - 1] == init;
    LastByte(BitsOf(init), t, t', u, 8 - avail, insert);
  }

  lemma {:induction false} AsAppended(bytes: seq<Byte>, b: Byte, t: seq<bool>)
    requires bytes != [] && bytes[|bytes| - 1] == b && t == ToBits(b, 8)
    ensures BitsOf(bytes) == BitsOf(bytes[..|bytes| - 1]) + t
  {
  }

  lemma LastByte(s: seq<bool>, t: seq<bool>, t': seq<bool>, u: seq<bool>, i: nat, n: nat)
    requires |t| == |t'| == 8 && i + n <= 8 && |u| == n && t'[..i + n] == t[..i] + u
    ensures (s + t')[..|s| + i + n] == (s + t)[..|s| + i] + u
  {
    assert (s + t')[..|s| + i + n] == s + t'[..i + n];
    assert (s + t)[..|s| + i] == s + t[..i];
  }

  lemma SliceOfSlice(s: seq<bool>, a: nat, i: nat, j: nat, n: nat)
    requires i <= j <= n && a + n <= |s|
    ensures s[a..a + n][i..j] == s[a + i..a + j]
  {
    var l, r := s[a..a + n][i..j], s[a + i..a + j];
    forall x | 0 <= x < j - i ensures l[x] == r[x] {
      assert l[x] == s[a..a + n][i + x];
    }
    assert l == r;
  }

  /** One group of bits is read off byte k. */
  lemma {:induction false} ReadStep(bytes: seq<Byte>, k: nat, avail: nat, insert: nat)
    requires k < |bytes| && insert <= avail <= 8
    ensures Low(ShiftRight(bytes[k], avail - insert), insert)
              == FromBits(BitsOf(bytes)[8 * k + (8 - avail)..8 * k + (8 - avail + insert)])
  {
    BitsOfAt(bytes, k);
    ExtractedByte(bytes[k], avail, insert);
    SliceOfSlice(BitsOf(bytes), 8 * k, 8 - avail, 8 - avail + insert, 8);
  }

  lemma {:induction false} ExtractedByte(b: Byte, avail: nat, insert: nat)
    requires insert <= avail <= 8
    ensures Low(ShiftRight(b, avail - insert), insert) == FromBits(ToBits(b, 8)[8 - avail..8 - avail + insert])
  {
    ExtractedBits(b, 8 - avail, insert, avail - insert);
  }

  /** A group of bits joins those already read: `val` holds them above `pos` places still to come. */
  lemma {:induction false} JoinGroup(s: seq<bool>, t: seq<bool>, pos: nat)
    ensures Or(ShiftLeft(FromBits(s), |t| + pos), ShiftLeft(FromBits(t), pos)) == ShiftLeft(FromBits(s + t), pos)
  {
    FromBitsSmall(t);
    ShiftLeftSmall(FromBits(t), |t|, pos);
    OrAdds(FromBits(s), |t| + pos, ShiftLeft(FromBits(t), pos));
    FromBitsAdds(s, t);
    ShiftLeftAdds(ShiftLeft(FromBits(s), |t|), FromBits(t), pos);
    ShiftLeftTwice(FromBits(s), |t|, pos);
  }

  // ---------------------------------------------------------------- buffers one after the other

  function Concat(used: seq<seq<Byte>>): seq<Byte> {
    if used == [] then [] else Concat(used[..|used| - 1]) + used[|used| - 1]
  }

  /** Where the bytes of buffer i begin. */
  function Offset(used: seq<seq<Byte>>, i: nat): nat
    requires i <= |used|
  {
    |Concat(used[..i])|
  }

  lemma {:induction false} ConcatPrefix(used: seq<seq<Byte>>, i: nat)
    requires i <= |used|
    ensures Concat(used[..i]) <= Concat(used)
    decreases |used| - i
  {
    if i < |used| {
      ConcatPrefix(used, i + 1);
      assert used[..i + 1][..i] == used[..i];
    } else {
      assert used[..i] == used;
    }
  }

  lemma {:induction false} NextOffset(used: seq<seq<Byte>>, i: nat)
    requires i < |used|
    ensures Offset(used, i + 1) == Offset(used, i) + |used[i]| <= |Concat(used)|
  {
    assert used[..i + 1][..i] == used[..i];
    ConcatPrefix(used, i + 1);
  }

  lemma {:induction false} ByteAt(used: seq<seq<Byte>>, i: nat, p: nat)
    requires i < |used| && p < |used[i]|
    ensures Offset(used, i) + p < |Concat(used)| && Concat(used)[Offset(used, i) + p] == used[i][p]
  {
    assert used[..i + 1][..i] == used[..i];
    ConcatPrefix(used, i + 1);
  }

  /** Nothing has been written after buffer c. */
  ghost predicate LastUsed(used: seq<seq<Byte>>, c: nat) {
    c < |used| && forall i | c < i < |used| :: used[i] == []
  }

  lemma {:induction false} UpToLast(used: seq<seq<Byte>>, c: nat)
    requires LastUsed(used, c)
    ensures Concat(used) == Concat(used[..c]) + used[c]
    decreases |used|
  {
    var n := |used| - 1;
    if c < n {
      assert used[..n][..c] == used[..c];
      UpToLast(used[..n], c);
    }
  }

  /** Changing the last buffer in use. */
  lemma {:induction false} LastChanged(used: seq<seq<Byte>>, c: nat, u: seq<Byte>)
    requires LastUsed(used, c)
    ensures LastUsed(used[c := u], c) && Concat(used[c := u]) == Concat(used[..c]) + u
  {
    UpToLast(used[c := u], c);
    assert used[c := u][..c] == used[..c];
  }

  // ---------------------------------------------------------------- the stream

  class Buffer {
    const data: array<Byte>
    var length: nat

    constructor Empty()
      ensures fresh(data) && data.Length == PAYLOAD_SIZE && length == 0
    {
      data := new Byte[PAYLOAD_SIZE](_ => 0);
      length := 0;
    }

    constructor Over(buf: array<Byte>, len: nat)
      ensures data == buf && length == len
    {
      data, length := buf, len;
    }
  }

  /** Merges a group of bits into byte b, the last one of `bytes`. */
  method Insert(b: Byte, group: nat, avail: nat, insert: nat, ghost bytes: seq<Byte>) returns (x: Byte)
    requires bytes != [] && b == bytes[|bytes| - 1] && insert <= avail <= 8 && Low(b, avail) == 0
               && group < Pow2(insert)
    ensures Low(x, avail - insert) == 0
    ensures WrittenBits(bytes[|bytes| - 1 := x], avail - insert) == WrittenBits(bytes, avail) + ToBits(group, insert)
  {
    var shifted := ShiftLeft(group, avail - insert);
    ShiftedFits(group, avail, insert, shifted);
    var cut := shifted % 256;
    ghost var merged := Or(b, cut);
    WriteStep(bytes, group, avail, insert, cut, merged);
    x := Or(b, cut);
  }

  lemma ShiftedFits(w: nat, avail: nat, insert: nat, shifted: nat)
    requires insert <= avail <= 8 && w < Pow2(insert) && shifted == ShiftLeft(w, avail - insert)
    ensures shifted < 256
  {
    LowOfZero(avail);
    InsertedBits(0, w, avail, insert);
  }

  class MemoryStream {
    var buffers: seq<Buffer>
    var current: nat
    var pos: int
    var avail: nat
    /** How many more buffers there is memory for. */
    var budget: nat
    /** The bytes in use, buffer by buffer. */
    ghost var used: seq<seq<Byte>>
    ghost var Repr: set<object>

    ghost predicate Holds(i: nat)
      requires i < |buffers| == |used|
      reads `buffers, `used, buffers[i], buffers[i].data
    {
      buffers[i].length <= buffers[i].data.Length && used[i] == buffers[i].data[..buffers[i].length]
    }

    ghost predicate Shape()
      reads `buffers, `used, `Repr, Repr
    {
      && this !in Repr && 1 <= |buffers| == |used|
      && (forall i: nat | i < |buffers| :: buffers[i] in Repr && buffers[i].data in Repr && Holds(i))
      && (forall i: nat, j: nat | i < j < |buffers| :: buffers[i] != buffers[j] && buffers[i].data != buffers[j].data)
    }

    /** The bit that is read next, counted from the start of the stream. */
    ghost function Cursor(): int
      requires current <= |used|
      reads `used, `current, `pos, `avail
    {
      8 * (Offset(used, current) + pos + 1) - avail
    }

    ghost predicate Reading()
      reads `buffers, `used, `Repr, `current, `pos, `avail, Repr
    {
      && Shape() && current < |buffers| && avail <= 8
      && ((pos == -1 && avail == 0) || 0 <= pos < |used[current]|)
    }

    /** Ready to append.  When a buffer was full and no new one could be had, `pos` has run ahead. */
    ghost predicate Writing()
      reads `buffers, `used, `Repr, `current, `pos, `avail, Repr
    {
      && Shape() && LastUsed(used, current) && avail <= 8 && buffers[current].data.Length == PAYLOAD_SIZE
      && (if avail > 0 then 0 <= pos && pos + 1 == |used[current]| && Low(used[current][pos], avail) == 0
          else pos + 1 >= |used[current]| && (pos + 1 > |used[current]| ==> |used[current]| == PAYLOAD_SIZE))
    }

    ghost function Written(): seq<bool>
      requires avail <= 8 * |Concat(used)|
      reads `used, `avail
    {
      WrittenBits(Concat(used), avail)
    }

    /** How many bits can still be written. */
    ghost function BitsLeft(): int
      requires current < |used|
      reads `used, `current, `avail, `budget
    {
      avail + 8 * (PAYLOAD_SIZE - |used[current]|) + 8 * PAYLOAD_SIZE * budget
    }

    /** What has been written, and how the stream stands. */
    ghost function Now(): Progress
      requires current < |used| && avail <= 8 * |Concat(used)|
      reads `used, `current, `pos, `avail, `budget
    {
      Progress(Written(), BitsLeft(), Gap())
    }

    /** How many failed attempts to get a buffer `pos` has counted as bytes. */
    ghost function Gap(): int
      requires current < |used|
      reads `used, `current, `pos
    {
      pos + 1 - |used[current]|
    }

    constructor Create(moreBuffers: nat)
      ensures Writing() && Gap() == 0 && fresh(Repr) && Concat(used) == [] && avail == 0 && Written() == []
                && Cursor() == 0
      ensures BitsLeft() == 8 * PAYLOAD_SIZE * (1 + moreBuffers)
    {
      var ptr := new Buffer.Empty();
      buffers, current, pos, avail, budget := [ptr], 0, -1, 0, moreBuffers;
      used := [[]];
      Repr := {ptr, ptr.data};
    }

    /** A stream that reads the caller's bytes. */
    constructor CreateOver(buf: array<Byte>, len: nat)
      requires len <= buf.Length
      ensures Reading() && Concat(used) == buf[..len] && Cursor() == 0 && fresh(Repr - {buf})
    {
      var ptr := new Buffer.Over(buf, len);
      buffers, current, pos, avail, budget := [ptr], 0, -1, 0, 0;
      used := [buf[..len]];
      Repr := {ptr, buf};
    }

    method Rewind()
      requires Shape()
      modifies `current, `pos, `avail
      ensures Reading() && Cursor() == 0
    {
      current, pos, avail := 0, -1, 0;
    }

    /** There are as many bytes as unwritten bits need. */
    lemma Room()
      requires Writing()
      ensures avail <= 8 * |Concat(used)|
      ensures avail > 0 ==> Concat(used) != [] && Concat(used)[|Concat(used)| - 1] == used[current][pos]
    {
      UpToLast(used, current);
    }

    // ---- writing

    method NewBuffer(ptr: Buffer)
      requires Writing() && avail == 0 && ptr !in Repr && ptr.data !in Repr && ptr.length == 0
                 && ptr.data.Length == PAYLOAD_SIZE
      modifies this
      ensures Writing() && avail == 0 && pos == -1 && Concat(used) == old(Concat(used)) && used[current] == []
                && budget == old(budget)
      ensures Repr == old(Repr) + {ptr, ptr.data} && current == |buffers| - 1 && buffers[current] == ptr
    {
      current, pos, avail := |buffers|, -1, 0;
      ghost var used0 := used;
      buffers := buffers + [ptr];
      used := used + [[]];
      assert used[..|used0|] == used0;
      Repr := Repr + {ptr, ptr.data};
      forall i: nat | i < |buffers| ensures Holds(i) {
        assert i < |used0| ==> old(Holds(i));
      }
    }

    /** In a stream that is ready to append no buffer is overfull. */
    lemma NotOverfull()
      requires Writing()
      ensures |used[current]| <= PAYLOAD_SIZE && 0 <= BitsLeft()
    {
      assert Holds(current);
    }

    /** Starts the next byte, in a new buffer if need be; fails when there is no memory for one. */
    method NextByte() returns (ok: bool)
      requires Writing() && avail == 0
      modifies this, Repr
      ensures Writing() && fresh(Repr - old(Repr)) && BitsLeft() == old(BitsLeft())
      ensures ok <==> 0 < old(BitsLeft())
      ensures ok ==> avail == 8 && Gap() == 0 && Concat(used) == old(Concat(used)) + [0]
      ensures !ok ==> avail == 0 && Gap() == old(Gap()) + 1 && Concat(used) == old(Concat(used))
    {
      NotOverfull();
      if pos + 1 >= PAYLOAD_SIZE {
        if budget == 0 {
          pos := pos + 1;
          return false;
        }
        budget := budget - 1;
        var ptr := new Buffer.Empty();
        NewBuffer(ptr);
      }
      ok := true;
      StartByte();
    }

    /** A byte with all its bits clear joins the buffer. */
    method StartByte()
      requires Writing() && avail == 0 && pos + 1 < PAYLOAD_SIZE
      modifies this, buffers[current], buffers[current].data
      ensures Writing() && avail == 8 && Gap() == 0 && Repr == old(Repr) && Concat(used) == old(Concat(used)) + [0]
      ensures BitsLeft() == old(BitsLeft())
    {
      assert Holds(current);
      var b := buffers[current];
      pos := pos + 1;
      b.length := b.length + 1;
      b.data[pos] := 0;
      avail := 8;
      LowOfZero(8);
      UpToLast(used, current);
      LastChanged(used, current, used[current] + [0]);
      used := used[current := used[current] + [0]];
      forall i: nat | i < |buffers| ensures Holds(i) {
        assert old(Holds(i));
      }
    }

    /** Puts a group of bits into the byte at `pos`. */
    method PutGroup(group: nat, insert: nat)
      requires Writing() && insert <= avail && 0 < avail && group < Pow2(insert) && avail <= 8 * |Concat(used)|
      modifies this, buffers[current].data
      ensures Writing() && Repr == old(Repr) && Gap() == old(Gap()) && avail == old(avail) - insert
                && avail <= 8 * |Concat(used)|
      ensures BitsLeft() == old(BitsLeft()) - insert
      ensures Written() == old(Written()) + ToBits(group, insert)
    {
      assert Holds(current);
      Room();
      var x := Insert(buffers[current].data[pos], group, avail, insert, Concat(used));
      PutByte(x, insert);
    }

    method PutByte(x: Byte, insert: nat)
      requires Writing() && insert <= avail && 0 < avail && Low(x, avail - insert) == 0
      modifies this, buffers[current].data
      ensures Writing() && Repr == old(Repr) && Gap() == old(Gap()) && avail == old(avail) - insert
      ensures BitsLeft() == old(BitsLeft()) - insert
      ensures old(Concat(used)) != [] && Concat(used) == old(Concat(used))[old(|Concat(used)|) - 1 := x]
    {
      assert Holds(current);
      buffers[current].data[pos] := x;
      avail := avail - insert;
      ghost var u: seq<Byte> := used[current][pos := x];
      UpToLast(used, current);
      LastChanged(used, current, u);
      used := used[current := u];
      forall i: nat | i < |buffers| ensures Holds(i) {
        assert old(Holds(i));
      }
    }

    /** Appends the lowest `bits` bits of val, or as many of them as there is room for. */
    method WriteBits32(val: nat, bits: nat) returns (ok: bool)
      requires Writing() && bits <= 32 && avail <= 8 * |Concat(used)|
      modifies this, Repr
      ensures Writing() && fresh(Repr - old(Repr)) && avail <= 8 * |Concat(used)|
      ensures Wrote(ToBits(val, bits), old(Now()), ok, Now())
    {
      NotOverfull();
      var left := bits;
      ghost var p0, s := Now(), ToBits(val, bits);
      NothingWritten(p0);
      ok := true;
      while left > 0 && ok
        invariant 0 <= left <= bits && Writing() && fresh(Repr - old(Repr)) && avail <= 8 * |Concat(used)|
        invariant Wrote(if ok then s[..bits - left] else s, p0, ok, Now())
        decreases left, ok
      {
        left, ok := WriteNext(val, bits, left, p0, s);
      }
      assert s[..bits] == s;
    }

    /** One turn of the loop, seen from the whole run of bits s. */
    method WriteNext(val: nat, bits: nat, left: nat, ghost p0: Progress, ghost s: seq<bool>)
        returns (left': nat, ok: bool)
      requires Writing() && 0 < left <= bits && avail <= 8 * |Concat(used)|
      requires s == ToBits(val, bits) && 0 <= p0.room && Wrote(s[..bits - left], p0, true, Now())
      modifies this, Repr
      ensures Writing() && fresh(Repr - old(Repr)) && avail <= 8 * |Concat(used)|
      ensures left' <= left && (ok ==> left' < left)
      ensures Wrote(if ok then s[..bits - left'] else s, p0, ok, Now())
    {
      ghost var p1, k := Now(), bits - left;
      var insert;
      ok, insert := WriteGroup(val, bits, left);
      left' := left - insert;
      ghost var chunk := s[k..if ok then k + insert else bits];
      assert s[..k] + chunk == if ok then s[..bits - left'] else s;
      TwoWrites(s[..k], chunk, p0, true, p1, ok, Now());
    }

    /** One turn of the loop: as many bits as fit into the byte at `pos`. */
    method WriteGroup(val: nat, bits: nat, left: nat) returns (ok: bool, insert: nat)
      requires Writing() && 0 < left <= bits && avail <= 8 * |Concat(used)|
      modifies this, Repr
      ensures Writing() && fresh(Repr - old(Repr)) && avail <= 8 * |Concat(used)|
      ensures insert <= left && (ok ==> 0 < insert)
      ensures Wrote(ToBits(val, bits)[bits - left..if ok then bits - left + insert else bits], old(Now()), ok, Now())
    {
      insert := 0;
      ghost var p0 := Now();
      ok := EnsureByte();
      if ok {
        insert := PutNext(val, bits, left, p0);
      } else {
        WroteNone(ToBits(val, bits)[bits - left..bits], p0, Now());
      }
    }

    /** Fills the byte at `pos` as far as the bits go; p0 is how the stream stood before it was started. */
    method PutNext(val: nat, bits: nat, left: nat, ghost p0: Progress) returns (insert: nat)
      requires Writing() && 0 < left <= bits && 0 < avail <= 8 * |Concat(used)|
      requires p0.written == Written() && p0.room == BitsLeft()
      modifies this, buffers[current].data
      ensures Writing() && Repr == old(Repr) && avail <= 8 * |Concat(used)| && 0 < insert <= left
      ensures Wrote(ToBits(val, bits)[bits - left..bits - left + insert], p0, true, Now())
    {
      NotOverfull();
      insert := if left < avail then left else avail;
      var group := Group(val, bits, left, insert);
      PutGroup(group, insert);
      WroteAll(ToBits(group, insert), p0, Now());
    }

    /** Makes sure that the byte at `pos` has room for a bit. */
    method EnsureByte() returns (ok: bool)
      requires Writing() && avail <= 8 * |Concat(used)|
      modifies this, Repr
      ensures Writing() && fresh(Repr - old(Repr)) && avail <= 8 * |Concat(used)|
      ensures Written() == old(Written()) && BitsLeft() == old(BitsLeft()) && (ok <==> 0 < old(BitsLeft()))
      ensures ok ==> avail > 0
      ensures !ok ==> BitsLeft() == 0 && Gap() == old(Gap()) + 1
    {
      NotOverfull();
      ok := true;
      if avail == 0 {
        ghost var bytes := Concat(used);
        FreshByte(bytes);
        ok := NextByte();
      }
    }

    /** Appends the lowest `bits` bits of val, the upper word first, or as many of them as there is room for. */
    method WriteBits64(val: nat, bits: nat) returns (ok: bool)
      requires Writing() && bits <= 64 && avail <= 8 * |Concat(used)|
      modifies this, Repr
      ensures Writing() && fresh(Repr - old(Repr)) && avail <= 8 * |Concat(used)|
      ensures Wrote(ToBits(val, bits), old(Now()), ok, Now())
    {
      NotOverfull();
      var low, upper := Words(val);
      ghost var s, t := WordBits(val, low, upper, bits);
      ok := WriteUpper(upper, bits);
      ok := WriteLower(low, bits, ok, s, t, old(Now()));
    }

    method WriteUpper(upper: nat, bits: nat) returns (ok: bool)
      requires Writing() && bits <= 64 && avail <= 8 * |Concat(used)|
      modifies this, Repr
      ensures Writing() && fresh(Repr - old(Repr)) && avail <= 8 * |Concat(used)|
      ensures Wrote(ToBits(upper, if bits > 32 then bits - 32 else 0), old(Now()), ok, Now())
    {
      NotOverfull();
      ok := true;
      if bits > 32 { ok := WriteBits32(upper, bits - 32); }
    }

    /** Appends the lower word, if the upper one has been written. */
    method WriteLower(low: nat, bits: nat, before: bool, ghost s: seq<bool>, ghost t: seq<bool>, ghost p0: Progress)
        returns (ok: bool)
      requires Writing() && bits <= 64 && avail <= 8 * |Concat(used)|
      requires t == ToBits(low, if bits > 32 then 32 else bits) && 0 <= p0.room && Wrote(s, p0, before, Now())
      modifies this, Repr
      ensures Writing() && fresh(Repr - old(Repr)) && avail <= 8 * |Concat(used)|
      ensures Wrote(s + t, p0, ok, Now())
    {
      ghost var p1 := Now();
      ok := before;
      if before { ok := WriteBits32(low, if bits > 32 then 32 else bits); }
      TwoWrites(s, t, p0, before, p1, ok, Now());
    }

    // ---- reading

    /** Steps to the next byte, over empty buffers; fails at the end of the stream. */
    method NextReadByte() returns (ok: bool)
      requires Reading() && avail == 0
      modifies `current, `pos, `avail
      ensures ok ==> Reading() && avail == 8 && Cursor() == old(Cursor())
      ensures !ok ==> old(Cursor()) == 8 * |Concat(used)| && current == |buffers|
    {
      ghost var at := Offset(used, current) + pos + 1;
      pos, avail, ok := pos + 1, 8, true;
      while ok && pos >= buffers[current].length
        invariant Shape() && avail == 8 && current <= |used|
        invariant ok ==> current < |used| && 0 <= pos <= |used[current]| && Offset(used, current) + pos == at
        invariant !ok ==> at == |Concat(used)| && current == |buffers|
        decreases |used| - current
      {
        assert Holds(current);
        NextOffset(used, current);
        current := current + 1;
        if current == |buffers| {
          assert used[..current] == used;
          ok := false;
        } else {
          pos := 0;
        }
      }
      if ok { assert Holds(current); }
    }

    /** Reads `bits` bits as a number, unless fewer are left. */
    method ReadBits32(bits: nat) returns (res: Option<nat>)
      requires Reading() && bits <= 32
      modifies `current, `pos, `avail
      ensures res.Some? <==> old(Cursor()) + bits <= 8 * |Concat(used)|
      ensures res.Some? ==> Reading() && Cursor() == old(Cursor()) + bits
      ensures res.None? ==> current == |buffers|
      ensures res.Some? ==> ReadsAs(BitsOf(Concat(used)), old(Cursor()), bits, res.value)
    {
      ghost var s, c := BitsOf(Concat(used)), Cursor();
      CursorInside();
      PartialStart(s, c, bits);
      var val, left := 0, bits;
      ghost var at := c;
      while left > 0
        invariant Reading() && 0 <= left <= bits && Cursor() == at == c + (bits - left)
        invariant Partial(s, c, at, val, left)
      {
        var ok;
        val, left, ok, at := ReadGroup(val, left, s, c, at);
        if !ok { return None; }
      }
      PartialEnd(s, c, bits, val);
      res := Some(val);
    }

    /** Reads up to 64 bits as a number, the upper word first. */
    method ReadBits64(bits: nat) returns (res: Option<nat>)
      requires Reading() && bits <= 64
      modifies `current, `pos, `avail
      ensures res.Some? <==> old(Cursor()) + bits <= 8 * |Concat(used)|
      ensures res.Some? ==> Reading() && Cursor() == old(Cursor()) + bits
      ensures res.None? ==> current == |buffers|
      ensures res.Some? ==> ReadsAs(BitsOf(Concat(used)), old(Cursor()), bits, res.value)
    {
      CursorInside();
      ghost var s, c := BitsOf(Concat(used)), Cursor();
      if bits <= 32 {
        res := ReadBits32(bits);
      } else {
        res := ReadWords(bits - 32, s, c);
      }
    }

    /** Reads the upper word and then the lower one. */
    method ReadWords(upperBits: nat, ghost s: seq<bool>, ghost c: nat) returns (res: Option<nat>)
      requires Reading() && upperBits <= 32 && s == BitsOf(Concat(used)) && c == Cursor() && c <= |s|
      modifies `current, `pos, `avail
      ensures res.Some? <==> c + upperBits + 32 <= |s|
      ensures res.None? ==> current == |buffers|
      ensures res.Some? ==> Reading() && Cursor() == c + upperBits + 32 && ReadsAs(s, c, upperBits + 32, res.value)
    {
      var upper := ReadBits32(upperBits);
      if upper.None? { return None; }
      var low := ReadBits32(32);
      if low.None? { return None; }
      var val := JoinWords(upper.value, low.value, s, c, upperBits);
      res := Some(val);
    }

    lemma CursorInside()
      requires Reading()
      ensures Cursor() <= 8 * |Concat(used)| && 0 <= Cursor()
    {
      NextOffset(used, current);
    }

    /** One turn of the loop: as many bits as the byte at `pos` still has; none at the end of the stream. */
    method ReadGroup(val: nat, left: nat, ghost s: seq<bool>, ghost c: nat, ghost at: nat)
        returns (val': nat, left': nat, ok: bool, ghost at': nat)
      requires Reading() && 0 < left && s == BitsOf(Concat(used)) && at == Cursor() && Partial(s, c, at, val, left)
      modifies `current, `pos, `avail
      ensures ok ==>
                left' < left && Reading() && Cursor() == at' == at + (left - left') && Partial(s, c, at', val', left')
      ensures !ok ==> at == 8 * |Concat(used)| && current == |buffers|
    {
      left', val', at' := left, val, at;
      ok := true;
      if avail == 0 { ok := NextReadByte(); }
      if ok {
        var insert := if left < avail then left else avail;
        val' := TakeBits(val, left, insert, s, c, at);
        left', at' := left - insert, at + insert;
      }
    }

    /** The next group of bits, from the byte at `pos`, joins those already read. */
    method TakeBits(val: nat, left: nat, insert: nat, ghost s: seq<bool>, ghost c: nat, ghost at: nat)
        returns (val': nat)
      requires Reading() && 0 < avail && insert <= avail && insert <= left && s == BitsOf(Concat(used))
      requires at == Cursor() && Partial(s, c, at, val, left)
      modifies `avail
      ensures Reading() && avail == old(avail) - insert && Cursor() == at + insert
      ensures Partial(s, c, at + insert, val', left - insert)
    {
      assert Holds(current);
      ByteAt(used, current, pos);
      var group := Take(buffers[current].data[pos], avail, insert, Concat(used), Offset(used, current) + pos);
      avail := avail - insert;
      val' := Join(val, group, left - insert, s, c, at, insert);
    }

    method BitsWritten() returns (val: int)
      requires Shape() && current < |buffers|
      ensures val == Cursor()
    {
      val := pos * 8 - avail + 8;
      var i := current;
      while i > 0
        invariant 0 <= i <= current
        invariant val + 8 * Offset(used, i) == Cursor()
      {
        i := i - 1;
        assert Holds(i);
        NextOffset(used, i);
        val := val + 8 * buffers[i].length;
      }
    }

    /** The count of bits written is too large by eight for each attempt to get a buffer that has failed
        since a bit was last written. */
    lemma BitsWrittenIs()
      requires Writing() && avail <= 8 * |Concat(used)|
      ensures 0 <= Gap() && Cursor() == |Written()| + 8 * Gap()
    {
      UpToLast(used, current);
    }

    method BitsAvailable() returns (val: int)
      requires Shape() && current < |buffers|
      ensures val == 8 * |Concat(used)| - Cursor()
    {
      val := avail - 8 * pos - 8;
      for i := current to |buffers|
        invariant val == 8 * Offset(used, i) - Cursor()
      {
        assert Holds(i);
        NextOffset(used, i);
        val := val + 8 * buffers[i].length;
      }
      assert used[..|used|] == used;
    }
  }

  // ---------------------------------------------------------------- round trips

  /** A value and the number of bits it is written with. */
  datatype Field = Field(val: nat, bits: nat)

  /** What a run of writes leaves on a fresh stream. */
  function Encode(fields: seq<Field>): seq<bool> {
    if fields == [] then []
    else Encode(fields[..|fields| - 1]) + ToBits(fields[|fields| - 1].val, fields[|fields| - 1].bits)
  }

  function TotalBits(fields: seq<Field>): nat {
    if fields == [] then 0 else TotalBits(fields[..|fields| - 1]) + fields[|fields| - 1].bits
  }

  lemma {:induction false} EncodedSize(fields: seq<Field>)
    ensures |Encode(fields)| == TotalBits(fields)
  {
    if fields != [] { EncodedSize(fields[..|fields| - 1]); }
  }

  /** Reading the i-th field back, wherever it lies, gives its value modulo 2^bits; what follows in
      the last byte does not matter. */
  lemma {:induction false} RoundTrip(fields: seq<Field>, i: nat, content: seq<bool>)
    requires i < |fields| && Encode(fields) <= content
    ensures TotalBits(fields[..i]) + fields[i].bits <= |content|
    ensures FromBits(content[TotalBits(fields[..i])..TotalBits(fields[..i]) + fields[i].bits])
              == fields[i].val % Pow2(fields[i].bits)
    decreases |fields|
  {
    var n := |fields| - 1;
    var init, last := fields[..n], fields[n];
    EncodedSize(init);
    if i < n {
      assert fields[..i] == init[..i];
      RoundTrip(init, i, content);
    } else {
      var at := TotalBits(init);
      assert content[at..at + last.bits] == ToBits(last.val, last.bits) by {
        assert content[..|Encode(fields)|] == Encode(init) + ToBits(last.val, last.bits);
      }
      ThereAndBack(last.val, last.bits);
      LowIsModulo(last.val, last.bits);
    }
  }

  /** The n bits of s from c on, as a number. */
  ghost predicate ReadsAs(s: seq<bool>, c: int, n: nat, val: nat) {
    0 <= c && c + n <= |s| && val == FromBits(s[c..c + n])
  }

  /** A 64-bit value from its two words. */
  method JoinWords(upper: nat, low: nat, ghost s: seq<bool>, ghost c: nat, ghost n: nat) returns (val: nat)
    requires ReadsAs(s, c, n, upper) && ReadsAs(s, c + n, 32, low)
    ensures ReadsAs(s, c, n + 32, val)
  {
    assert s[c..c + (n + 32)] == s[c..c + n] + s[c + n..c + n + 32];
    FromBitsAdds(s[c..c + n], s[c + n..c + n + 32]);
    val := ShiftLeft(upper, 32) + low;
  }

  /** The whole way, for any run of writes on a fresh stream for which there is memory for so many more
      buffers: the writes succeed exactly if there is room for all bits; then, after a rewind, reading
      with the same widths gives every value back modulo two to its width. */
  method WriteThenRead(fields: seq<Field>, moreBuffers: nat) returns (ok: bool, written: int, values: seq<nat>)
    requires forall i | 0 <= i < |fields| :: fields[i].bits <= 64
    ensures ok <==> TotalBits(fields) <= 8 * PAYLOAD_SIZE * (1 + moreBuffers)
    ensures written == if ok then TotalBits(fields) else 8 * PAYLOAD_SIZE * (1 + moreBuffers) + 8
    ensures ok ==> |values| == |fields|
    ensures ok ==> forall i | 0 <= i < |fields| :: values[i] == fields[i].val % Pow2(fields[i].bits)
  {
    var stream := new MemoryStream.Create(moreBuffers);
    values := [];
    ok, written := WriteAndCount(stream, fields, 8 * PAYLOAD_SIZE * (1 + moreBuffers));
    if ok { values := RewindAndRead(stream, fields); }
  }

  method WriteAndCount(stream: MemoryStream, fields: seq<Field>, ghost room: nat) returns (ok: bool, written: int)
    requires stream.Writing() && stream.avail <= 8 * |Concat(stream.used)| && stream.Now() == Progress([], room, 0)
    requires forall i | 0 <= i < |fields| :: fields[i].bits <= 64
    modifies stream, stream.Repr
    ensures stream.Writing() && stream.avail <= 8 * |Concat(stream.used)|
    ensures ok <==> TotalBits(fields) <= room
    ensures ok ==> stream.Written() == Encode(fields)
    ensures written == if ok then TotalBits(fields) else room + 8
  {
    ok := WriteAll(stream, fields);
    WroteFromStart(Encode(fields), room, ok, stream.Now());
    EncodedSize(fields);
    stream.BitsWrittenIs();
    written := stream.BitsWritten();
  }

  method RewindAndRead(stream: MemoryStream, fields: seq<Field>) returns (values: seq<nat>)
    requires stream.Writing() && stream.avail <= 8 * |Concat(stream.used)|
    requires stream.Written() == Encode(fields) && forall i | 0 <= i < |fields| :: fields[i].bits <= 64
    modifies stream
    ensures |values| == |fields| && forall i | 0 <= i < |fields| :: values[i] == fields[i].val % Pow2(fields[i].bits)
  {
    stream.Rewind();
    values := ReadAll(stream, fields);
  }

  /** Writes the fields one after the other, until one does not fit. */
  method WriteAll(stream: MemoryStream, fields: seq<Field>) returns (ok: bool)
    requires stream.Writing() && stream.avail <= 8 * |Concat(stream.used)|
    requires forall i | 0 <= i < |fields| :: fields[i].bits <= 64
    modifies stream, stream.Repr
    ensures stream.Writing() && stream.avail <= 8 * |Concat(stream.used)|
    ensures Wrote(Encode(fields), old(stream.Now()), ok, stream.Now())
  {
    ok := true;
    ghost var p0 := stream.Now();
    stream.NotOverfull();
    NothingWritten(p0);
    for i := 0 to |fields|
      invariant stream.Writing() && fresh(stream.Repr - old(stream.Repr)) && stream.avail <= 8 * |Concat(stream.used)|
      invariant ok && Wrote(Encode(fields[..i]), p0, true, stream.Now())
    {
      ghost var p1 := stream.Now();
      ok := stream.WriteBits64(fields[i].val, fields[i].bits);
      OneMore(fields, i, p0, p1, ok, stream.Now());
      if !ok { return; }
    }
    assert fields[..|fields|] == fields;
  }

  lemma {:induction false} OneMore(fields: seq<Field>, i: nat, p: Progress, p1: Progress, ok: bool, p2: Progress)
    requires i < |fields| && 0 <= p.room && Wrote(Encode(fields[..i]), p, true, p1)
               && Wrote(ToBits(fields[i].val, fields[i].bits), p1, ok, p2)
    ensures ok ==> Wrote(Encode(fields[..i + 1]), p, true, p2)
    ensures !ok ==> Wrote(Encode(fields), p, false, p2)
  {
    var next := EncodeNext(fields, i);
    var rest := EncodePrefix(fields, i + 1);
    WroteNext(Encode(fields[..i]), ToBits(fields[i].val, fields[i].bits), rest, p, p1, ok, p2);
  }

  lemma WroteNext(s: seq<bool>, t: seq<bool>, rest: seq<bool>, p: Progress, p1: Progress, ok: bool, p2: Progress)
    requires 0 <= p.room && Wrote(s, p, true, p1) && Wrote(t, p1, ok, p2)
    ensures Wrote(s + t, p, ok, p2)
    ensures !ok ==> Wrote(s + t + rest, p, false, p2)
  {
    TwoWrites(s, t, p, true, p1, ok, p2);
    if !ok { WroteMore(s + t, rest, p, p2); }
  }

  lemma EncodeNext(fields: seq<Field>, i: nat) returns (next: seq<bool>)
    requires i < |fields|
    ensures next == Encode(fields[..i + 1]) == Encode(fields[..i]) + ToBits(fields[i].val, fields[i].bits)
  {
    assert fields[..i + 1][..i] == fields[..i];
    next := Encode(fields[..i + 1]);
  }

  lemma {:induction false} EncodePrefix(fields: seq<Field>, i: nat) returns (rest: seq<bool>)
    requires i <= |fields|
    ensures Encode(fields) == Encode(fields[..i]) + rest
    decreases |fields|
  {
    if i == |fields| {
      rest := [];
      assert fields[..i] == fields;
    } else {
      var n := |fields| - 1;
      rest := EncodePrefix(fields[..n], i);
      assert fields[..n][..i] == fields[..i];
      rest := rest + ToBits(fields[n].val, fields[n].bits);
    }
  }

  method ReadAll(stream: MemoryStream, fields: seq<Field>) returns (values: seq<nat>)
    requires stream.Reading() && stream.Cursor() == 0 && Encode(fields) <= BitsOf(Concat(stream.used))
    requires forall i | 0 <= i < |fields| :: fields[i].bits <= 64
    modifies stream
    ensures |values| == |fields| && forall i | 0 <= i < |fields| :: values[i] == fields[i].val % Pow2(fields[i].bits)
  {
    values := [];
    ghost var all := Values(fields);
    for i := 0 to |fields|
      invariant stream.Reading() && stream.used == old(stream.used) && stream.Cursor() == TotalBits(fields[..i])
      invariant values == all[..i]
    {
      var v := ReadField(stream, fields, i);
      values := values + [v];
    }
  }

  /** The values to be expected back. */
  function Values(fields: seq<Field>): seq<nat> {
    seq(|fields|, i requires 0 <= i < |fields| => fields[i].val % Pow2(fields[i].bits))
  }

  method ReadField(stream: MemoryStream, fields: seq<Field>, i: nat) returns (v: nat)
    requires i < |fields| && fields[i].bits <= 64
    requires stream.Reading() && stream.Cursor() == TotalBits(fields[..i])
               && Encode(fields) <= BitsOf(Concat(stream.used))
    modifies stream`current, stream`pos, stream`avail
    ensures stream.Reading() && stream.Cursor() == TotalBits(fields[..i + 1])
    ensures v == Values(fields)[i]
  {
    RoundTrip(fields, i, BitsOf(Concat(stream.used)));
    var res := stream.ReadBits64(fields[i].bits);
    v := res.value;
    assert fields[..i + 1][..i] == fields[..i];
  }

  /** The bits of s from c up to `at` have been read into val, above `left` places still to come. */
  ghost predicate Partial(s: seq<bool>, c: int, at: int, val: nat, left: nat) {
    0 <= c <= at <= |s| && val == ShiftLeft(FromBits(s[c..at]), left)
  }

  lemma {:induction false} PartialStart(s: seq<bool>, c: nat, left: nat)
    requires c <= |s|
    ensures Partial(s, c, c, 0, left)
  {
    assert FromBits(s[c..c]) == 0;
    ShiftLeftAdds(0, 0, left);
  }

  lemma PartialEnd(s: seq<bool>, c: int, n: nat, val: nat)
    requires Partial(s, c, c + n, val, 0)
    ensures ReadsAs(s, c, n, val)
  {
  }

  /** Merges a group of bits into the value read so far. */
  method Join(val: nat, group: nat, left: nat, ghost s: seq<bool>, ghost c: nat, ghost at: nat, ghost insert: nat)
      returns (val': nat)
    requires at + insert <= |s| && Partial(s, c, at, val, left + insert) && group == FromBits(s[at..at + insert])
    ensures Partial(s, c, at + insert, val', left)
  {
    assert s[c..at + insert] == s[c..at] + s[at..at + insert];
    JoinGroup(s[c..at], s[at..at + insert], left);
    val' := Or(val, ShiftLeft(group, left));
  }

  /** The group of bits at the top of the lowest `avail` bits of byte b. */
  method Take(b: Byte, avail: nat, insert: nat, ghost bytes: seq<Byte>, ghost k: nat) returns (group: nat)
    requires insert <= avail <= 8 && k < |bytes| && bytes[k] == b
    ensures group == FromBits(BitsOf(bytes)[8 * k + (8 - avail)..8 * k + (8 - avail + insert)])
  {
    MaskedByte(ShiftRight(b, avail - insert), insert);
    ReadStep(bytes, k, avail, insert);
    group := And(ShiftRight(b, avail - insert), ShiftLeft(1, insert) - 1);
  }

  /** The first n elements of s, or all of them. */
  function UpTo(s: seq<bool>, n: int): seq<bool> {
    if n < 0 then [] else if n < |s| then s[..n] else s
  }

  /** The bits written, how many more there is room for, and how many failed attempts to get a buffer have
      been counted as bytes. */
  datatype Progress = Progress(written: seq<bool>, room: int, gap: int)

  /** The bits s have been written as far as there was room; that is a success if it was for all of them. A
      bit that is written makes good for earlier failed attempts, and a write that fails counts one more. */
  ghost predicate Wrote(s: seq<bool>, p: Progress, ok: bool, p': Progress) {
    && (ok <==> |s| <= p.room)
    && p'.written == p.written + UpTo(s, p.room)
    && p'.room == (if ok then p.room - |s| else 0)
    && p'.gap == (if s == [] || p.room <= 0 then p.gap else 0) + (if ok then 0 else 1)
  }

  lemma NothingWritten(p: Progress)
    requires 0 <= p.room
    ensures Wrote([], p, true, p)
  {
  }

  /** What a run leaves on a fresh stream. */
  lemma WroteFromStart(s: seq<bool>, room: nat, ok: bool, p: Progress)
    requires Wrote(s, Progress([], room, 0), ok, p)
    ensures ok <==> |s| <= room
    ensures ok ==> p.written == s && p.gap == 0
    ensures !ok ==> |p.written| == room && p.gap == 1
  {
  }

  lemma WroteAll(s: seq<bool>, p: Progress, p': Progress)
    requires s != [] && |s| <= p.room && p' == Progress(p.written + s, p.room - |s|, 0)
    ensures Wrote(s, p, true, p')
  {
  }

  lemma WroteNone(s: seq<bool>, p: Progress, p': Progress)
    requires s != [] && p.room == 0 && p' == Progress(p.written, 0, p.gap + 1)
    ensures Wrote(s, p, false, p')
  {
  }

  /** Once there is no more room, it does not matter what was still to be written. */
  lemma WroteMore(s: seq<bool>, t: seq<bool>, p: Progress, p': Progress)
    requires 0 <= p.room && Wrote(s, p, false, p')
    ensures Wrote(s + t, p, false, p')
  {
    assert (s + t)[..p.room] == s[..p.room];
  }

  /** Two writes one after the other, the second only if the first has succeeded. */
  lemma TwoWrites(s: seq<bool>, t: seq<bool>, p: Progress, ok1: bool, p1: Progress, ok: bool, p2: Progress)
    requires 0 <= p.room && Wrote(s, p, ok1, p1) && (if ok1 then Wrote(t, p1, ok, p2) else !ok && p2 == p1)
    ensures Wrote(s + t, p, ok, p2)
  {
    if ok1 {
      if p.room < |s| + |t| { assert (s + t)[..p.room] == s + t[..p.room - |s|]; }
    } else {
      assert (s + t)[..p.room] == s[..p.room];
    }
  }

  /** The next `insert` bits of val, from the top of the lowest `left` bits down. */
  method Group(val: nat, ghost bits: nat, left: nat, insert: nat) returns (group: nat)
    requires insert <= left <= bits
    ensures group < Pow2(insert)
    ensures ToBits(group, insert) == ToBits(val, bits)[bits - left..bits - left + insert]
  {
    MaskedByte(ShiftRight(val, left - insert), insert);
    LowSmall(ShiftRight(val, left - insert), insert);
    ToBitsOfLow(ShiftRight(val, left - insert), insert);
    SliceOfByte(val, bits - left, insert, left - insert);
    group := And(ShiftRight(val, left - insert), ShiftLeft(1, insert) - 1);
  }

  /** The two 32-bit words of a 64-bit value. */
  method Words(val: nat) returns (low: nat, upper: nat)
    ensures low == LowWord(val) && upper == ShiftRight(val, 32)
  {
    low, upper := LowWord(val), ShiftRight(val, 32);
  }

  /** The bits that the two words contribute. */
  lemma {:induction false} WordBits(val: nat, low: nat, upper: nat, bits: nat) returns (s: seq<bool>, t: seq<bool>)
    requires low == LowWord(val) && upper == ShiftRight(val, 32)
    ensures ToBits(val, bits) == s + t
    ensures bits > 32 ==> s == ToBits(upper, bits - 32) && t == ToBits(low, 32)
    ensures bits <= 32 ==> s == [] && t == ToBits(low, bits)
  {
    if bits > 32 {
      ToBitsSplits(val, bits - 32, 32);
      ToBitsOfLow(val, 32);
      s, t := ToBits(upper, bits - 32), ToBits(low, 32);
    } else {
      SameLowWord(val, 32 - bits, bits);
      s, t := [], ToBits(low, bits);
    }
  }

  /** The conversion to a 32-bit word. */
  function LowWord(val: nat): nat { Low(val, 32) }

  lemma {:induction false} SameLowWord(val: nat, rest: nat, bits: nat)
    ensures ToBits(Low(val, rest + bits), bits) == ToBits(val, bits)
  {
    var low := Low(val, rest + bits);
    ToBitsOfLow(val, rest + bits);
    ToBitsSplits(val, rest, bits);
    ToBitsSplits(low, rest, bits);
    assert ToBits(low, bits) == ToBits(low, rest + bits)[rest..];
    assert ToBits(val, bits) == ToBits(val, rest + bits)[rest..];
  }
}
