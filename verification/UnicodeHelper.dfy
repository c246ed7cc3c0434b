/** Conversion between UTF-16 and UTF-8 (section 3 of RFC 3629). */
module UnicodeHelper {

  type Word = x: nat | x < 0x10000

  type Byte = x: nat | x < 0x100

  const HIGH_SURROGATE_START: nat := 0xD800
  const HIGH_SURROGATE_END: nat := 0xDBFF
  const LOW_SURROGATE_START: nat := 0xDC00
  const LOW_SURROGATE_END: nat := 0xDFFF
  const SURROGATE_HALFBASE: nat := 0x10000
  const SURROGATE_HALFSIZE: nat := 0x400

  predicate High(u: Word) { HIGH_SURROGATE_START <= u <= HIGH_SURROGATE_END }

  predicate Low(u: Word) { LOW_SURROGATE_START <= u <= LOW_SURROGATE_END }

  // ---------------------------------------------------------------- the encodings

  ghost predicate PairOk(text: seq<Word>, k: nat)
    requires k < |text|
  {
    && (High(text[k]) ==> k + 1 < |text| && Low(text[k + 1]))
    && (Low(text[k]) ==> k > 0 && High(text[k - 1]))
  }

  /** Every high surrogate is followed by a low one, and no low one stands elsewhere. */
  ghost predicate WellFormed(text: seq<Word>) {
    forall k: nat | k < |text| :: PairOk(text, k)
  }

  /** A character ends before word i. */
  ghost predicate Boundary(text: seq<Word>, i: nat) {
    i <= |text| && (i > 0 ==> !High(text[i - 1]))
  }

  /** The index of the word after the character at word i. */
  function After(text: seq<Word>, i: nat): (j: nat)
    requires i < |text|
    ensures i < j <= |text|
  {
    if High(text[i]) && i + 1 < |text| then i + 2 else i + 1
  }

  function CodePoint(text: seq<Word>, i: nat): (cp: nat)
    requires i < |text|
    ensures cp < 0x110000
  {
    if High(text[i]) && i + 1 < |text| && Low(text[i + 1]) then
      SURROGATE_HALFBASE + (text[i] - HIGH_SURROGATE_START) * SURROGATE_HALFSIZE + (text[i + 1] - LOW_SURROGATE_START)
    else text[i]
  }

  /** The bytes of one character. */
  function Utf8(cp: nat): (r: seq<Byte>)
    requires cp < 0x110000
    ensures 1 <= |r| <= 4
  {
    if cp < 0x80 then [cp]
    else if cp < 0x800 then [0xC0 + cp / 0x40, 0x80 + cp % 0x40]
    else if cp < 0x10000 then [0xE0 + cp / 0x1000, 0x80 + cp / 0x40 % 0x40, 0x80 + cp % 0x40]
    else [0xF0 + cp / 0x40000, 0x80 + cp / 0x1000 % 0x40, 0x80 + cp / 0x40 % 0x40, 0x80 + cp % 0x40]
  }

  /** The encoding of a text from word i on. */
  function Encode(text: seq<Word>, i: nat): seq<Byte>
    requires i <= |text|
    decreases |text| - i
  {
    if i == |text| then [] else Utf8(CodePoint(text, i)) + Encode(text, After(text, i))
  }

  /** The encodings of all the ends of a text; e[i] begins with the bytes of the character at word i. */
  ghost predicate IsEncoding(text: seq<Word>, e: seq<seq<Byte>>) {
    && |e| == |text| + 1 && e[|text|] == []
    && forall i: nat {:trigger Piece(text, e, i)} | i < |text| :: Piece(text, e, i)
  }

  ghost predicate Piece(text: seq<Word>, e: seq<seq<Byte>>, i: nat)
    requires i < |text| && |e| == |text| + 1
  {
    e[i] == Utf8(CodePoint(text, i)) + e[After(text, i)]
  }

  lemma {:induction false} Ends(text: seq<Word>) returns (e: seq<seq<Byte>>)
    ensures IsEncoding(text, e) && e[0] == Encode(text, 0)
  {
    e := seq(|text| + 1, i requires 0 <= i <= |text| => Encode(text, i));
  }

  /** The number of characters from word i on; a pair of surrogates is one character. */
  function Characters(text: seq<Word>, i: nat): nat
    requires i <= |text|
    decreases |text| - i
  {
    if i == |text| then 0 else 1 + Characters(text, After(text, i))
  }

  // ---------------------------------------------------------------- the encodings as the standards give them

  predicate Tail(b: nat) { 0x80 <= b <= 0xBF }

  ghost predicate Two(a: nat, x: nat, cp: nat) {
    0xC0 <= a <= 0xDF && Tail(x) && 0x80 <= cp && cp == (a - 0xC0) * 64 + (x - 0x80)
  }

  ghost predicate Three(a: nat, x: nat, y: nat, cp: nat) {
    && 0xE0 <= a <= 0xEF && Tail(x) && Tail(y) && 0x800 <= cp
    && cp == (a - 0xE0) * 4096 + (x - 0x80) * 64 + (y - 0x80)
  }

  ghost predicate Four(a: nat, x: nat, y: nat, z: nat, cp: nat) {
    && 0xF0 <= a <= 0xF7 && Tail(x) && Tail(y) && Tail(z) && 0x10000 <= cp <= 0x10FFFF
    && cp == (a - 0xF0) * 262144 + (x - 0x80) * 4096 + (y - 0x80) * 64 + (z - 0x80)
  }

  /** The bytes are the UTF-8 encoding of the code point, by the table in section 3 of RFC 3629: a lead
      byte that tells the length, continuation bytes with six bits each, and no more bytes than needed. */
  ghost predicate IsUtf8(bytes: seq<Byte>, cp: nat) {
    || (|bytes| == 1 && bytes[0] < 0x80 && cp == bytes[0])
    || (|bytes| == 2 && Two(bytes[0], bytes[1], cp))
    || (|bytes| == 3 && Three(bytes[0], bytes[1], bytes[2], cp))
    || (|bytes| == 4 && Four(bytes[0], bytes[1], bytes[2], bytes[3], cp))
  }

  /** The bytes of a character are its encoding by RFC 3629, and nothing else is. */
  lemma {:induction false} Utf8Exactly(bytes: seq<Byte>, cp: nat)
    requires cp < 0x110000
    ensures IsUtf8(bytes, cp) <==> bytes == Utf8(cp)
  {
    var r := Utf8(cp);
    if cp < 0x80 {
    } else if cp < 0x800 {
      Digits(cp);
    } else if cp < 0x10000 {
      Digits(cp);
      Digits(cp / 0x40);
      assert cp / 0x1000 == cp / 0x40 / 0x40;
    } else {
      Digits(cp);
      Digits(cp / 0x40);
      Digits(cp / 0x1000);
      assert cp / 0x1000 == cp / 0x40 / 0x40 && cp / 0x40000 == cp / 0x1000 / 0x40;
    }
    assert IsUtf8(r, cp);
    if IsUtf8(bytes, cp) { OneEncoding(bytes, r, cp); }
  }

  lemma Digits(n: nat)
    ensures n == n / 0x40 * 64 + n % 0x40 && n % 0x40 < 64
  {
  }

  lemma {:induction false} OneEncoding(a: seq<Byte>, b: seq<Byte>, cp: nat)
    requires IsUtf8(a, cp) && IsUtf8(b, cp)
    ensures a == b
  {
    if |a| == 4 {
      FourOnly(a[0], a[1], a[2], a[3], b[0], b[1], b[2], b[3], cp);
    } else if |a| == 3 {
      ThreeOnly(a[0], a[1], a[2], b[0], b[1], b[2], cp);
    } else if |a| == 2 {
      LastDigit(a[0] as nat - 0xC0, a[1] as nat - 0x80, b[0] as nat - 0xC0, b[1] as nat - 0x80);
    }
  }

  lemma {:induction false} ThreeOnly(a: nat, x: nat, y: nat, a': nat, x': nat, y': nat, cp: nat)
    requires Three(a, x, y, cp) && Three(a', x', y', cp)
    ensures a == a' && x == x' && y == y'
  {
    LastDigit((a - 0xE0) * 64 + (x - 0x80), y - 0x80, (a' - 0xE0) * 64 + (x' - 0x80), y' - 0x80);
    LastDigit(a - 0xE0, x - 0x80, a' - 0xE0, x' - 0x80);
  }

  lemma {:induction false} FourOnly(a: nat, x: nat, y: nat, z: nat, a': nat, x': nat, y': nat, z': nat, cp: nat)
    requires Four(a, x, y, z, cp) && Four(a', x', y', z', cp)
    ensures a == a' && x == x' && y == y' && z == z'
  {
    LastDigit((a - 0xF0) * 4096 + (x - 0x80) * 64 + (y - 0x80), z - 0x80,
      (a' - 0xF0) * 4096 + (x' - 0x80) * 64 + (y' - 0x80), z' - 0x80);
    LastDigit((a - 0xF0) * 64 + (x - 0x80), y - 0x80, (a' - 0xF0) * 64 + (x' - 0x80), y' - 0x80);
    LastDigit(a - 0xF0, x - 0x80, a' - 0xF0, x' - 0x80);
  }

  lemma LastDigit(a: nat, x: nat, b: nat, y: nat)
    requires x < 64 && y < 64 && a * 64 + x == b * 64 + y
    ensures a == b && x == y
  {
  }

  /** The code point of a pair of surrogates. */
  ghost function Paired(hi: nat, lo: nat): nat
    requires 0xD800 <= hi <= 0xDBFF && 0xDC00 <= lo <= 0xDFFF
  {
    0x10000 + (hi - 0xD800) * 1024 + (lo - 0xDC00)
  }

  /** The bytes are the encoding of the text from word i on: each word outside 0xD800 to 0xDFFF is a
      character, and so is each pair of one from 0xD800 to 0xDBFF and one from 0xDC00 to 0xDFFF, with
      ten bits of the code point less 0x10000 in each half; no other word of that range occurs. */
  ghost predicate EncodedFrom(text: seq<Word>, i: nat, bytes: seq<Byte>)
    requires i <= |text|
    decreases |text| - i
  {
    if i == |text| then bytes == []
    else if 0xD800 <= text[i] <= 0xDBFF then
      && i + 1 < |text| && 0xDC00 <= text[i + 1] <= 0xDFFF && 4 <= |bytes|
      && IsUtf8(bytes[..4], Paired(text[i], text[i + 1]))
      && EncodedFrom(text, i + 2, bytes[4..])
    else
      var n := if text[i] < 0x80 then 1 else if text[i] < 0x800 then 2 else 3;
      && !(0xDC00 <= text[i] <= 0xDFFF) && n <= |bytes| && IsUtf8(bytes[..n], text[i])
      && EncodedFrom(text, i + 1, bytes[n..])
  }

  /** The rest of the text is well formed. */
  ghost predicate WellFormedFrom(text: seq<Word>, i: nat) {
    forall k: nat | i <= k < |text| :: PairOk(text, k)
  }

  lemma {:induction false} EncodesFrom(text: seq<Word>, i: nat, bytes: seq<Byte>)
    requires Boundary(text, i)
    ensures EncodedFrom(text, i, bytes) <==> WellFormedFrom(text, i) && bytes == Encode(text, i)
    decreases |text| - i
  {
    if i < |text| {
      if !PairOk(text, i) {
        assert !WellFormedFrom(text, i);
      } else {
        var cp, j := CodePoint(text, i), After(text, i);
        var n := |Utf8(cp)|;
        assert Encode(text, i) == Utf8(cp) + Encode(text, j);
        assert WellFormedFrom(text, i) <==> WellFormedFrom(text, j) by {
          if WellFormedFrom(text, j) { assert j == i + 2 ==> PairOk(text, i + 1); }
        }
        if n <= |bytes| {
          Utf8Exactly(bytes[..n], cp);
          EncodesFrom(text, j, bytes[n..]);
          assert bytes == bytes[..n] + bytes[n..];
          assert (Utf8(cp) + Encode(text, j))[..n] == Utf8(cp) && (Utf8(cp) + Encode(text, j))[n..] == Encode(text, j);
        }
      }
    }
  }

  /** The encoding is the one of the standards: a text has one exactly if it is well formed, and only one. */
  lemma {:induction false} EncodesText(text: seq<Word>, bytes: seq<Byte>)
    ensures EncodedFrom(text, 0, bytes) <==> WellFormed(text) && bytes == Encode(text, 0)
  {
    EncodesFrom(text, 0, bytes);
    assert WellFormed(text) <==> WellFormedFrom(text, 0);
  }

  /** What the decoder makes of an encoded text: right for every character of one word; the high
      surrogate of a pair comes out 64 too large. */
  function Decoded(text: seq<Word>): (r: seq<Word>)
    ensures |r| == |text|
  {
    seq(|text|, i requires 0 <= i < |text| => if High(text[i]) then text[i] + 0x40 else text[i])
  }

  ghost predicate NoNul(text: seq<Word>) {
    forall i | 0 <= i < |text| :: text[i] != 0
  }

  /** A text comes back from its encoding exactly if it has no surrogates. */
  lemma DecodedIsText(text: seq<Word>)
    ensures Decoded(text) == text <==> forall i | 0 <= i < |text| :: !High(text[i])
  {
    forall i | 0 <= i < |text| ensures Decoded(text)[i] == text[i] <==> !High(text[i]) {
    }
    if Decoded(text) == text {
      assert forall i | 0 <= i < |text| :: Decoded(text)[i] == text[i];
    }
  }

  /** A character is as many bytes long as the counting takes it to be. */
  lemma SizeOf(cp: nat)
    requires cp < 0x110000
    ensures |Utf8(cp)| == if cp < 0x80 then 1 else if cp < 0x800 then 2 else if cp < 0x10000 then 3 else 4
  {
  }

  lemma Regroup(before: seq<Byte>, rest: seq<Byte>, head: seq<Byte>, tail: seq<Byte>)
    requires rest == head + tail
    ensures (before + head) + tail == before + rest
  {
  }

  /** Inside the text there is no NUL. */
  lemma InputAt(input: seq<Word>, start: nat, text: seq<Word>, i: nat)
    requires NoNul(text) && start + |text| < |input| && input[start..start + |text|] == text && i <= |text|
    ensures i < |text| ==> input[start + i] == text[i] != 0
  {
    forall k | 0 <= k < |text| ensures input[start + k] == text[k] {
      assert input[start..start + |text|][k] == input[start + k];
    }
  }

  // ---------------------------------------------------------------- any bytes

  /** The number of bytes of a character that begins with b. */
  function Need(b: Byte): (n: nat)
    ensures n <= 4
  {
    if b < 0x80 then 1 else if b < 0xC0 then 0 else if b < 0xE0 then 2 else if b < 0xF0 then 3 else 4
  }

  /** A lead byte stands at i, with all its continuation bytes behind it. */
  predicate Legal(input: seq<Byte>, i: nat)
    requires i < |input|
  {
    && !(0x80 <= input[i] < 0xC0) && i + Need(input[i]) <= |input|
    && forall k | i < k < i + Need(input[i]) :: Tail(input[k])
  }

  /** The bytes that are to be looked at for the character at i are there. */
  ghost predicate InReach(input: seq<Byte>, i: nat)
    requires i < |input|
  {
    i + Need(input[i]) <= |input| || exists k :: i < k < |input| && !Tail(input[k])
  }

  /** The words that `max` characters from byte i on make, or all up to a NUL; -1 if one of them is illegal. */
  function Walk(input: seq<Byte>, i: nat, max: int): (num: int)
    ensures -1 <= num
    decreases |input| - i
  {
    if i >= |input| then -1
    else if input[i] == 0 || max == 0 then 0
    else if !Legal(input, i) then -1
    else
      var rest := Walk(input, i + Need(input[i]), max - 1);
      if rest < 0 then -1 else rest + if input[i] < 0xF0 then 1 else 2
  }

  /** The walk stays inside the input. */
  ghost predicate Readable(input: seq<Byte>, i: nat, max: int)
    decreases |input| - i
  {
    && i < |input|
    && (input[i] == 0 || max == 0
        || (InReach(input, i) && (!Legal(input, i) || Readable(input, i + Need(input[i]), max - 1))))
  }

  /** Whatever the bytes are, the walk stays in front of a NUL. */
  lemma {:induction false} UpToNul(input: seq<Byte>, i: nat, end: nat, max: int)
    requires i <= end < |input| && input[end] == 0
    ensures Readable(input, i, max)
    decreases end - i
  {
    if input[i] != 0 && max != 0 {
      assert !Tail(input[end]);
      if Legal(input, i) { UpToNul(input, i + Need(input[i]), end, max - 1); }
    }
  }

  /** The walk fails exactly if it comes to a byte that begins no legal character; `at` are the places it
      comes to. */
  lemma {:induction false} WalkFails(input: seq<Byte>, i: nat, max: int) returns (at: seq<nat>)
    requires Readable(input, i, max)
    ensures at != [] && at[0] == i && forall k | 0 <= k < |at| :: at[k] < |input|
    ensures forall k | 0 <= k < |at| - 1 ::
              Legal(input, at[k]) && input[at[k]] != 0 && at[k + 1] == at[k] + Need(input[at[k]])
    ensures
      var last := at[|at| - 1];
      if Walk(input, i, max) == -1 then input[last] != 0 && !Legal(input, last) && (max < 0 || |at| <= max)
      else input[last] == 0 || |at| - 1 == max
    decreases |input| - i
  {
    if input[i] == 0 || max == 0 || !Legal(input, i) {
      at := [i];
    } else {
      var rest := WalkFails(input, i + Need(input[i]), max - 1);
      at := [i] + rest;
    }
  }

  // ---------------------------------------------------------------- the helper

  class UnicodeHelper {
    var inputUTF16: array<Word>
    var input16: nat
    var outputUTF8: array<Byte>
    var output8: nat
    var outputUTF8_size: nat
    var inputUTF8: array<Byte>
    var input8: nat
    var outputUTF16: array<Word>
    var output16: nat
    var outputUTF16_size: nat

    constructor (in16: array<Word>, out8: array<Byte>, in8: array<Byte>, out16: array<Word>)
      ensures inputUTF16 == in16 && outputUTF8 == out8 && inputUTF8 == in8 && outputUTF16 == out16
      ensures input16 == output8 == input8 == output16 == 0
      ensures outputUTF8_size == out8.Length && outputUTF16_size == out16.Length
    {
      inputUTF16, outputUTF8, inputUTF8, outputUTF16 := in16, out8, in8, out16;
      input16, output8, input8, output16 := 0, 0, 0, 0;
      outputUTF8_size, outputUTF16_size := out8.Length, out16.Length;
    }

    /** The UTF-16 input from `start` on, up to a NUL or up to a limit that does not split a pair. */
    ghost predicate Text(text: seq<Word>, start: nat)
      reads this, inputUTF16
    {
      && NoNul(text) && start + |text| < inputUTF16.Length && inputUTF16[start..start + |text|] == text
      && (inputUTF16[start + |text|] == 0 || Boundary(text, |text|))
    }

    /** A caller's limit of `max` words, or none (-1), leaves just this text. */
    ghost predicate Within(text: seq<Word>, start: nat, max: int)
      requires Text(text, start)
      reads this, inputUTF16
    {
      (max == -1 || max >= |text|) && (inputUTF16[start + |text|] == 0 || max == |text|)
    }

    /** Room for the UTF-8 output. */
    ghost predicate Output8()
      reads this, outputUTF8
    {
      output8 + outputUTF8_size <= outputUTF8.Length
    }

    /** The size in UTF-8 of the character at src, or -1, and the number of words it takes. */
    method SizeAt(src: nat, ghost text: seq<Word>, ghost e: seq<seq<Byte>>, ghost start: nat, ghost i: nat)
        returns (size: int, n: nat)
      requires IsEncoding(text, e) && Text(text, start) && i < |text| && src == start + i && Boundary(text, i)
      ensures size == -1 || 1 <= size
      ensures size == -1 ==> !WellFormed(text)
      ensures size >= 1 ==>
                i + n == After(text, i) && Boundary(text, i + n) && forall k: nat | i <= k < i + n :: PairOk(text, k)
      ensures size >= 1 ==> |e[i]| == size + |e[i + n]|
    {
      InputAt(inputUTF16[..], start, text, i);
      var ch: nat := inputUTF16[src];
      SizeOf(CodePoint(text, i));
      assert Piece(text, e, i) && (WellFormed(text) ==> PairOk(text, i));
      n := 1;
      if ch < 0x80 {
        size := 1;
      } else if ch < 0x800 {
        size := 2;
      } else if LOW_SURROGATE_START <= ch <= LOW_SURROGATE_END {
        size := -1;
      } else if HIGH_SURROGATE_START <= ch <= HIGH_SURROGATE_END {
        InputAt(inputUTF16[..], start, text, i + 1);
        ch := inputUTF16[src + 1];
        if LOW_SURROGATE_START <= ch <= LOW_SURROGATE_END { size, n := 4, 2; } else { size := -1; }
      } else {
        size := 3;
      }
    }

    /** The number of bytes the input takes in UTF-8, or -1 when it is not well formed. */
    method CountNumberOfBytes(max: int, ghost text: seq<Word>) returns (num: int)
      requires Text(text, input16) && Within(text, input16, max)
      ensures num == if WellFormed(text) then |Encode(text, 0)| else -1
    {
      ghost var e := Ends(text);
      num := CountBytes(max, text, e);
    }

    method CountBytes(max: int, ghost text: seq<Word>, ghost e: seq<seq<Byte>>) returns (num: int)
      requires IsEncoding(text, e) && Text(text, input16) && Within(text, input16, max)
      ensures num == if WellFormed(text) then |e[0]| else -1
    {
      var src, left := input16, max;
      ghost var i := 0;
      num := 0;
      InputAt(inputUTF16[..], input16, text, 0);
      while inputUTF16[src] != 0 && left != 0
        invariant 0 <= i <= |text| && src == input16 + i && num >= 0
        invariant Boundary(text, i) && forall k: nat | k < i :: PairOk(text, k)
        invariant num + |e[i]| == |e[0]|
        invariant (left < 0 || left >= |text| - i) && (inputUTF16[input16 + |text|] == 0 || left == |text| - i)
        invariant i < |text| ==> inputUTF16[src] != 0
        decreases |text| - i
      {
        var size, n := SizeAt(src, text, e, input16, i);
        if size == -1 { return -1; }
        src, num, left := src + n, num + size, left - n;
        i := i + n;
        InputAt(inputUTF16[..], input16, text, i);
      }
    }

    /** Writes bytes to the output if there is room. */
    method Store(bytes: seq<Byte>) returns (ok: bool)
      requires Output8()
      modifies this`output8, this`outputUTF8_size, outputUTF8
      ensures Output8() && output8 + outputUTF8_size == old(output8 + outputUTF8_size)
      ensures ok == (|bytes| <= old(outputUTF8_size))
      ensures ok ==> output8 == old(output8) + |bytes| && outputUTF8[..output8] == old(outputUTF8[..output8]) + bytes
      ensures !ok ==> output8 == old(output8) && outputUTF8[..] == old(outputUTF8[..])
    {
      ok := |bytes| <= outputUTF8_size;
      if ok {
        forall k | 0 <= k < |bytes| { outputUTF8[output8 + k] := bytes[k]; }
        output8, outputUTF8_size := output8 + |bytes|, outputUTF8_size - |bytes|;
      }
    }

    /** Takes one character off the input. */
    method NextCharacter(ghost text: seq<Word>, ghost start: nat, ghost i: nat) returns (ch: nat, n: nat)
      requires Text(text, start) && i < |text| && WellFormed(text) && Boundary(text, i) && input16 == start + i
      modifies this`input16
      ensures i + n == After(text, i) && Boundary(text, i + n) && input16 == start + i + n
      ensures ch == CodePoint(text, i)
    {
      InputAt(inputUTF16[..], start, text, i);
      assert PairOk(text, i);
      ch, n := inputUTF16[input16], 1;
      input16 := input16 + 1;
      if HIGH_SURROGATE_START <= ch <= HIGH_SURROGATE_END {
        InputAt(inputUTF16[..], start, text, i + 1);
        ch := SURROGATE_HALFBASE + (ch - HIGH_SURROGATE_START) * SURROGATE_HALFSIZE
            + (inputUTF16[input16] - LOW_SURROGATE_START);
        input16, n := input16 + 1, 2;
      }
    }

    /** Takes one character off the input and writes its bytes, if there is room. */
    method PutCharacter(ghost text: seq<Word>, ghost e: seq<seq<Byte>>, ghost start: nat, ghost i: nat)
      returns (ok: bool, n: nat, ghost bytes: seq<Byte>)
      requires Text(text, start) && i < |text| && WellFormed(text) && Boundary(text, i) && input16 == start + i
                 && Output8()
      requires IsEncoding(text, e)
      modifies this`input16, this`output8, this`outputUTF8_size, outputUTF8
      ensures i + n == After(text, i) && Boundary(text, i + n) && input16 == start + i + n && e[i] == bytes + e[i + n]
      ensures i + n < |text| ==> inputUTF16[input16] != 0
      ensures Output8() && output8 + outputUTF8_size == old(output8 + outputUTF8_size)
      ensures ok == (|bytes| <= old(outputUTF8_size))
      ensures ok ==> output8 == old(output8) + |bytes| && outputUTF8[..output8] == old(outputUTF8[..output8]) + bytes
    {
      var ch;
      ch, n := NextCharacter(text, start, i);
      InputAt(inputUTF16[..], start, text, i + n);
      assert Piece(text, e, i);
      bytes := Utf8(ch);
      ok := Store(Utf8(ch));
    }

    /** Converts the input; succeeds exactly when the buffer has room for all its bytes and a NUL. */
    method ConvertToUTF8(maxChars: int, ghost text: seq<Word>) returns (res: bool)
      requires Text(text, input16) && WellFormed(text) && maxChars >= 0 && Within(text, input16, maxChars) && Output8()
      modifies this`input16, this`output8, this`outputUTF8_size, outputUTF8
      ensures res == (|Encode(text, 0)| + 1 <= old(outputUTF8_size))
      ensures res ==>
                output8 == old(output8) + |Encode(text, 0)| && output8 < outputUTF8.Length && outputUTF8[output8] == 0
      ensures res ==> outputUTF8[..output8] == old(outputUTF8[..output8]) + Encode(text, 0)
      ensures res ==> input16 == old(input16) + |text| + if maxChars > |text| then 1 else 0
    {
      ghost var e := Ends(text);
      res := ConvertCharacters(maxChars, text, e);
      if res { res := Terminate(); }
    }

    method ConvertCharacters(maxChars: int, ghost text: seq<Word>, ghost e: seq<seq<Byte>>) returns (res: bool)
      requires Text(text, input16) && WellFormed(text) && maxChars >= 0 && Within(text, input16, maxChars) && Output8()
                 && IsEncoding(text, e)
      modifies this`input16, this`output8, this`outputUTF8_size, outputUTF8
      ensures Output8() && output8 + outputUTF8_size == old(output8 + outputUTF8_size)
      ensures res == (|e[0]| <= old(outputUTF8_size))
      ensures res ==> output8 == old(output8) + |e[0]| && outputUTF8[..output8] == old(outputUTF8[..output8]) + e[0]
      ensures res ==> input16 == old(input16) + |text| + if maxChars > |text| then 1 else 0
    {
      var left := maxChars;
      ghost var i, start, all := 0, input16, outputUTF8[..output8] + e[0];
      InputAt(inputUTF16[..], start, text, 0);
      while left > 0
        invariant 0 <= i <= |text| && Boundary(text, i) && input16 == start + i && left == maxChars - i && Output8()
        invariant output8 + outputUTF8_size == old(output8 + outputUTF8_size)
        invariant outputUTF8[..output8] + e[i] == all
        invariant i < |text| ==> inputUTF16[input16] != 0
        decreases |text| - i
      {
        if inputUTF16[input16] == 0 {
          input16 := input16 + 1;
          break;
        }
        ghost var before := outputUTF8[..output8];
        var ok, n;
        ghost var bytes;
        ok, n, bytes := PutCharacter(text, e, start, i);
        Regroup(before, e[i], bytes, e[i + n]);
        if !ok { return false; }
        i, left := i + n, left - n;
      }
      res := true;
    }

    method Terminate() returns (ok: bool)
      requires Output8()
      modifies outputUTF8
      ensures ok == (1 <= outputUTF8_size) && outputUTF8[..output8] == old(outputUTF8[..output8])
      ensures ok ==> outputUTF8[output8] == 0
    {
      ok := outputUTF8_size >= 1;
      if ok { outputUTF8[output8] := 0; }
    }

    // ---- back from UTF-8

    /** The encoding of the text from word i on is found at src. */
    ghost predicate EncodedAt(text: seq<Word>, e: seq<seq<Byte>>, i: nat, src: nat)
      reads this, inputUTF8
    {
      && Boundary(text, i) && WellFormed(text) && NoNul(text) && IsEncoding(text, e)
      && Holds(e[i], src)
    }

    ghost predicate Holds(bytes: seq<Byte>, src: nat)
      reads this, inputUTF8
    {
      src + |bytes| < inputUTF8.Length && inputUTF8[src..src + |bytes|] == bytes
    }

    /** A NUL comes at `end`, or the caller's limit stops the walk there. */
    ghost predicate Stops(end: nat, limited: bool)
      reads this, inputUTF8
    {
      end < inputUTF8.Length && (inputUTF8[end] == 0 || limited)
    }

    /** The bytes of the character at word i, and where the next one is found. */
    lemma {:induction false} Character(text: seq<Word>, e: seq<seq<Byte>>, i: nat, src: nat)
      requires EncodedAt(text, e, i, src) && i < |text|
      ensures src + |Utf8(CodePoint(text, i))| < inputUTF8.Length && inputUTF8[src] != 0
      ensures inputUTF8[src..src + |Utf8(CodePoint(text, i))|] == Utf8(CodePoint(text, i))
      ensures Holds(e[After(text, i)], src + |Utf8(CodePoint(text, i))|)
      ensures Boundary(text, After(text, i)) && 0 < CodePoint(text, i)
      ensures After(text, i) == i + (if CodePoint(text, i) < 0x10000 then 1 else 2)
    {
      assert Piece(text, e, i) && PairOk(text, i);
      var head, tail := Utf8(CodePoint(text, i)), e[After(text, i)];
      assert e[i] == head + tail;
      SplitInput(inputUTF8[..], src, head, tail);
      assert inputUTF8[src] == head[0];
      LeadByte(CodePoint(text, i));
    }

    /** Before the end of the text there is no NUL. */
    lemma {:induction false} NotAtEnd(text: seq<Word>, e: seq<seq<Byte>>, i: nat, src: nat)
      requires EncodedAt(text, e, i, src)
      ensures i < |text| ==> inputUTF8[src] != 0
      ensures i == |text| <==> e[i] == []
    {
      if i < |text| {
        Character(text, e, i, src);
        assert Piece(text, e, i);
      }
    }

    /** How many words of UTF-16 the first `max` characters of the input make, or all of them (-1);
        -1 at an illegal byte. */
    method CountNumberOfCharacters(max: int) returns (num: int)
      requires Readable(inputUTF8[..], input8, max)
      ensures num == Walk(inputUTF8[..], input8, max)
    {
      var src, left := input8, max;
      ghost var input := inputUTF8[..];
      num := 0;
      while inputUTF8[src] != 0 && left != 0
        invariant Readable(input, src, left) && 0 <= num
        invariant Walk(input, input8, max) == if Walk(input, src, left) < 0 then -1 else num + Walk(input, src, left)
        decreases inputUTF8.Length - src
      {
        var size, words := CountAt(src);
        if size < 0 { return -1; }
        src, num, left := src + size, num + words, left - 1;
      }
    }

    /** The number of bytes and of words of one character, or -1 at an illegal byte. */
    method CountAt(src: nat) returns (size: int, words: nat)
      requires src < inputUTF8.Length && InReach(inputUTF8[..], src)
      ensures size == if Legal(inputUTF8[..], src) then Need(inputUTF8[src]) else -1
      ensures words == if inputUTF8[src] < 0xF0 then 1 else 2
    {
      var ch := inputUTF8[src];
      words := 1;
      if ch < 0x80 {
        size := 1;
      } else if ch < 0xC0 {
        size := -1;
      } else if ch < 0xE0 {
        size := if BadLowPart(inputUTF8[src + 1]) then -1 else 2;
      } else if ch < 0xF0 {
        size := if BadLowPart(inputUTF8[src + 1]) || BadLowPart(inputUTF8[src + 2]) then -1 else 3;
      } else {
        var bad := BadLowPart(inputUTF8[src + 1]) || BadLowPart(inputUTF8[src + 2]) || BadLowPart(inputUTF8[src + 3]);
        size := if bad then -1 else 4;
        words := 2;
      }
    }

    /** The character at word i is legal where it is found, and the next one is found behind it. */
    lemma {:induction false} FirstCharacter(text: seq<Word>, e: seq<seq<Byte>>, i: nat, src: nat) returns (next: nat)
      requires EncodedAt(text, e, i, src) && i < |text|
      ensures src < inputUTF8.Length && inputUTF8[src] != 0
      ensures Legal(inputUTF8[..], src) && InReach(inputUTF8[..], src) && next == src + Need(inputUTF8[src])
      ensures After(text, i) == i + if inputUTF8[src] < 0xF0 then 1 else 2
      ensures EncodedAt(text, e, After(text, i), next) && next + |e[After(text, i)]| == src + |e[i]|
    {
      var cp := CodePoint(text, i);
      Character(text, e, i, src);
      assert Piece(text, e, i);
      LegalCharacter(inputUTF8[..], src, cp);
      next := src + |Utf8(cp)|;
    }

    /** The walk over the encoding of a text counts its words. */
    lemma {:induction false} WalkOverText(text: seq<Word>, e: seq<seq<Byte>>, i: nat, src: nat, left: int)
      requires EncodedAt(text, e, i, src) && (left < 0 || left >= Characters(text, i))
      requires Stops(src + |e[i]|, left == Characters(text, i))
      ensures Readable(inputUTF8[..], src, left) && Walk(inputUTF8[..], src, left) == |text| - i
      decreases |text| - i
    {
      NotAtEnd(text, e, i, src);
      if i < |text| {
        var j := After(text, i);
        var next := FirstCharacter(text, e, i, src);
        WalkOverText(text, e, j, next, left - 1);
      }
    }

    lemma {:induction false} CountsWords(text: seq<Word>, max: int)
      requires Holds(Encode(text, 0), input8) && WellFormed(text) && NoNul(text)
      requires max == -1 || max >= Characters(text, 0)
      requires Stops(input8 + |Encode(text, 0)|, max == Characters(text, 0))
      ensures Readable(inputUTF8[..], input8, max) && Walk(inputUTF8[..], input8, max) == |text|
    {
      var e := Ends(text);
      WalkOverText(text, e, 0, input8, max);
    }

    /** Room for the UTF-16 output. */
    ghost predicate Output16()
      reads this, outputUTF16
    {
      output16 + outputUTF16_size <= outputUTF16.Length
    }

    /** Converts the encoding of a text back, with a byte budget of three for each word asked for.  It
        writes all words, and reports success exactly when no more words were asked for than there
        are and the buffer has room for them and a NUL. */
    method ConvertFromUTF8(maxChars: int, ghost text: seq<Word>) returns (res: bool)
      requires Holds(Encode(text, 0), input8) && WellFormed(text) && NoNul(text) && maxChars >= |text| && Output16()
      requires Stops(input8 + |Encode(text, 0)|, maxChars == |text|)
      modifies this`input8, this`output16, this`outputUTF16_size, outputUTF16
      ensures res == (maxChars == |text| && |text| + 1 <= old(outputUTF16_size))
      ensures |text| <= old(outputUTF16_size) ==>
                output16 == old(output16) + |text| && outputUTF16[..output16] == old(outputUTF16[..output16])
                    + Decoded(text)
      ensures res ==> output16 < outputUTF16.Length && outputUTF16[output16] == 0
    {
      ghost var e := Ends(text);
      res := ConvertWords(maxChars, text, e);
      if res { res := Terminate16(); }
    }

    method ConvertWords(maxChars: int, ghost text: seq<Word>, ghost e: seq<seq<Byte>>) returns (res: bool)
      requires EncodedAt(text, e, 0, input8) && maxChars >= |text| && Output16()
                 && Stops(input8 + |e[0]|, maxChars == |text|)
      modifies this`input8, this`output16, this`outputUTF16_size, outputUTF16
      ensures Output16() && output16 + outputUTF16_size == old(output16 + outputUTF16_size)
      ensures res == (maxChars == |text| && |text| <= old(outputUTF16_size))
      ensures |text| <= old(outputUTF16_size) ==>
                output16 == old(output16) + |text| && outputUTF16[..output16] == old(outputUTF16[..output16])
                    + Decoded(text)
    {
      var chars, bytes := maxChars, maxChars * 3;
      ghost var i: nat := 0;
      ghost var before, decoded := outputUTF16[..output16], Decoded(text);
      ghost var stop := input8 + |e[0]|;
      NotAtEnd(text, e, 0, input8);
      while chars > 0 && bytes > 0
        invariant EncodedAt(text, e, i, input8) && chars == maxChars - i && bytes >= 3 * chars && Output16()
        invariant output16 == |before| + i && output16 + outputUTF16_size == old(output16 + outputUTF16_size)
        invariant outputUTF16[..output16] == before + decoded[..i]
        invariant input8 + |e[i]| == stop && (i < |text| ==> inputUTF8[input8] != 0) && (i == |text| <==> e[i] == [])
        decreases chars
      {
        if inputUTF8[input8] == 0 {
          assert decoded[..i] == decoded;
          return false;
        }
        var ok, size, words := ConvertOne(bytes, text, e, i);
        if !ok { return false; }
        Grown(before, decoded, i, i + words);
        chars, bytes := chars - words, bytes - size;
        i := i + words;
        NotAtEnd(text, e, i, input8);
      }
      assert decoded[..i] == decoded;
      res := true;
    }

    /** Decodes the character at word i and writes its words, if there is room. */
    method ConvertOne(bytes: int, ghost text: seq<Word>, ghost e: seq<seq<Byte>>, ghost i: nat)
        returns (ok: bool, size: nat, words: nat)
      requires EncodedAt(text, e, i, input8) && i < |text| && bytes >= 3 * (|text| - i) && Output16()
      modifies this`input8, this`output16, this`outputUTF16_size, outputUTF16
      ensures Output16() && output16 + outputUTF16_size == old(output16 + outputUTF16_size)
      ensures 1 <= words && i + words <= |text| && size <= 3 * words
      ensures ok == (words <= old(outputUTF16_size))
      ensures ok ==> EncodedAt(text, e, i + words, input8) && output16 == old(output16) + words
      ensures ok ==> input8 + |e[i + words]| == old(input8) + |e[i]|
      ensures ok ==> outputUTF16[..output16] == old(outputUTF16[..output16]) + Decoded(text)[i..i + words]
      ensures !ok ==> output16 == old(output16) && outputUTF16[..] == old(outputUTF16[..])
    {
      Character(text, e, i, input8);
      assert Piece(text, e, i);
      DecodedAt(text, i);
      SizeOf(CodePoint(text, i));
      ok, size, words := PutWords(bytes, CodePoint(text, i));
    }

    method Terminate16() returns (ok: bool)
      requires Output16()
      modifies outputUTF16
      ensures ok == (1 <= outputUTF16_size) && outputUTF16[..output16] == old(outputUTF16[..output16])
      ensures ok ==> outputUTF16[output16] == 0
    {
      ok := outputUTF16_size >= 1;
      if ok { outputUTF16[output16] := 0; }
    }

    /** The length of the character at src, and its code point. */
    method DecodeAt(src: nat, ghost bytes: seq<Byte>, ghost cp: nat) returns (size: nat, ch2: nat)
      requires Decodes(bytes, cp) && src + |bytes| <= inputUTF8.Length && inputUTF8[src..src + |bytes|] == bytes
      ensures size == |bytes| && ch2 == cp
    {
      forall k | 0 <= k < |bytes| ensures inputUTF8[src + k] == bytes[k] {
        assert inputUTF8[src..src + |bytes|][k] == inputUTF8[src + k];
      }
      var ch: nat := inputUTF8[src];
      size, ch2 := 1, ch;
      if 0xC2 <= ch < 0xE0 {
        size, ch2 := 2, LoadLowPart(ch % 0x20, inputUTF8[src + 1]);
      } else if 0xE0 <= ch < 0xF0 {
        size, ch2 := 3, LoadLowPart(LoadLowPart(ch % 0x10, inputUTF8[src + 1]), inputUTF8[src + 2]);
      } else if 0xF0 <= ch {
        size, ch2 := 4, LoadLowPart(LoadLowPart(LoadLowPart(ch % 8, inputUTF8[src + 1]), inputUTF8[src + 2]),
            inputUTF8[src + 3]);
      }
    }

    /** Decodes the character at `input8` and writes its words. */
    method PutWords(bytes: int, ghost cp: nat) returns (ok: bool, size: nat, words: nat)
      requires Output16() && 0 < cp < 0x110000 && |Utf8(cp)| <= bytes && input8 + |Utf8(cp)| <= inputUTF8.Length
                 && inputUTF8[input8..input8 + |Utf8(cp)|] == Utf8(cp)
      modifies this`input8, this`output16, this`outputUTF16_size, outputUTF16
      ensures Output16() && output16 + outputUTF16_size == old(output16 + outputUTF16_size)
      ensures size == |Utf8(cp)| && words == |WordsFor(cp)|
      ensures ok == (words <= old(outputUTF16_size))
      ensures ok ==>
                input8 == old(input8) + size && output16 == old(output16) + words
                && outputUTF16[..output16] == old(outputUTF16[..output16]) + WordsFor(cp)
      ensures !ok ==> output16 == old(output16) && outputUTF16[..] == old(outputUTF16[..]) && input8 == old(input8)
    {
      var ch2;
      Decodable(cp);
      SizeOf(cp);
      size, ch2 := DecodeAt(input8, Utf8(cp), cp);
      words := if size == 4 then 2 else 1;
      ok := outputUTF16_size >= words && bytes >= size;
      if ok {
        if words == 1 {
          outputUTF16[output16] := ch2;
        } else {
          outputUTF16[output16] := ch2 / SURROGATE_HALFSIZE + HIGH_SURROGATE_START;
          outputUTF16[output16 + 1] := ch2 % SURROGATE_HALFSIZE + LOW_SURROGATE_START;
        }
        input8, output16, outputUTF16_size := input8 + size, output16 + words, outputUTF16_size - words;
      }
    }
  }

  lemma Grown(before: seq<Word>, decoded: seq<Word>, i: nat, next: nat)
    requires i <= next <= |decoded|
    ensures before + decoded[..i] + decoded[i..next] == before + decoded[..next]
  {
  }

  /** Putting the bytes together gives back the code point. */
  lemma Decode2(cp: nat)
    requires 0x80 <= cp < 0x800
    ensures LoadLowPart((0xC0 + cp / 0x40) % 0x20, 0x80 + cp % 0x40) == cp
  {
  }

  lemma Decode3(cp: nat)
    requires 0x800 <= cp < 0x10000
    ensures LoadLowPart(LoadLowPart((0xE0 + cp / 0x1000) % 0x10, 0x80 + cp / 0x40 % 0x40), 0x80 + cp % 0x40) == cp
  {
    assert cp / 0x1000 == cp / 0x40 / 0x40;
  }

  lemma Decode4(cp: nat)
    requires 0x10000 <= cp < 0x110000
    ensures LoadLowPart(LoadLowPart(LoadLowPart((0xF0 + cp / 0x40000) % 8, 0x80 + cp / 0x1000 % 0x40),
              0x80 + cp / 0x40 % 0x40), 0x80 + cp % 0x40) == cp
  {
    assert cp / 0x1000 == cp / 0x40 / 0x40;
    assert cp / 0x40000 == cp / 0x1000 / 0x40;
  }

  /** The first byte tells how many there are, and put together they give the code point. */
  ghost predicate Decodes(bytes: seq<Byte>, cp: nat) {
    && 1 <= |bytes| <= 4
    && var b, n := bytes[0], |bytes|;
    && (n == 1 <==> b < 0x80) && (n == 2 <==> 0xC2 <= b < 0xE0) && (n == 3 <==> 0xE0 <= b < 0xF0)
        && (n == 4 <==> 0xF0 <= b < 0xF5)
    && cp == (if n == 1 then b
              else if n == 2 then LoadLowPart(b % 0x20, bytes[1])
              else if n == 3 then LoadLowPart(LoadLowPart(b % 0x10, bytes[1]), bytes[2])
              else LoadLowPart(LoadLowPart(LoadLowPart(b % 8, bytes[1]), bytes[2]), bytes[3]))
  }

  lemma {:induction false} Decodable(cp: nat)
    requires cp < 0x110000
    ensures Decodes(Utf8(cp), cp)
  {
    LeadByte(cp);
    if 0x80 <= cp < 0x800 {
      Decode2(cp);
    } else if 0x800 <= cp < 0x10000 {
      Decode3(cp);
    } else if 0x10000 <= cp {
      Decode4(cp);
    }
  }

  /** Six more bits from a continuation byte. */
  function LoadLowPart(ch2: nat, ch: Byte): nat { ch2 * 0x40 + ch % 0x40 }

  predicate BadLowPart(ch: Byte) { ch < 0x80 || ch > 0xBF }

  /** The words that the decoder writes for a code point. */
  function WordsFor(cp: nat): (r: seq<Word>)
    requires cp < 0x110000
    ensures |r| == if cp < 0x10000 then 1 else 2
  {
    if cp < 0x10000 then [cp]
    else [cp / SURROGATE_HALFSIZE + HIGH_SURROGATE_START, cp % SURROGATE_HALFSIZE + LOW_SURROGATE_START]
  }

  lemma DecodedAt(text: seq<Word>, i: nat)
    requires i < |text| && WellFormed(text) && Boundary(text, i) && NoNul(text)
    ensures 0 < CodePoint(text, i) && After(text, i) == i + |WordsFor(CodePoint(text, i))|
    ensures Decoded(text)[i..After(text, i)] == WordsFor(CodePoint(text, i))
  {
    assert PairOk(text, i);
    if High(text[i]) {
      var hi, lo := text[i] - HIGH_SURROGATE_START, text[i + 1] - LOW_SURROGATE_START;
      assert CodePoint(text, i) == SURROGATE_HALFSIZE * (hi + 0x40) + lo;
    }
  }

  /** The first byte of an encoding tells its length. */
  lemma LeadByte(cp: nat)
    requires cp < 0x110000
    ensures Utf8(cp)[0] == 0 <==> cp == 0
    ensures
      var b, n := Utf8(cp)[0], |Utf8(cp)|;
      && (n == 1 <==> b < 0x80) && (n == 2 <==> 0xC2 <= b < 0xE0) && (n == 3 <==> 0xE0 <= b < 0xF0)
          && (n == 4 <==> 0xF0 <= b < 0xF5)
    ensures forall j | 1 <= j < |Utf8(cp)| :: 0x80 <= Utf8(cp)[j] <= 0xBF
  {
  }

  lemma Bytes(input: seq<Byte>, src: nat, cp: nat)
    requires cp < 0x110000 && src + |Utf8(cp)| <= |input| && input[src..src + |Utf8(cp)|] == Utf8(cp)
    ensures forall j | 0 <= j < |Utf8(cp)| :: input[src + j] == Utf8(cp)[j]
  {
    forall j | 0 <= j < |Utf8(cp)| ensures input[src + j] == Utf8(cp)[j] {
      assert input[src..src + |Utf8(cp)|][j] == input[src + j];
    }
  }

  /** The encoding of a character is a legal one. */
  lemma {:induction false} LegalCharacter(input: seq<Byte>, src: nat, cp: nat)
    requires 0 < cp < 0x110000 && src + |Utf8(cp)| <= |input| && input[src..src + |Utf8(cp)|] == Utf8(cp)
    ensures Legal(input, src) && Need(input[src]) == |Utf8(cp)| && input[src] != 0 && InReach(input, src)
    ensures input[src] < 0xF0 <==> cp < 0x10000
  {
    Bytes(input, src, cp);
    LeadByte(cp);
    SizeOf(cp);
    assert input[src + 0] == Utf8(cp)[0];
    forall k | src < k < src + |Utf8(cp)| ensures Tail(input[k]) {
      assert input[src + (k - src)] == Utf8(cp)[k - src];
    }
  }

  lemma SplitInput(input: seq<Byte>, src: nat, head: seq<Byte>, tail: seq<Byte>)
    requires src + |head| + |tail| <= |input| && input[src..src + |head + tail|] == head + tail
    ensures input[src..src + |head|] == head && input[src + |head|..src + |head| + |tail|] == tail
    ensures head != [] ==> input[src] == head[0]
  {
    assert input[src..src + |head|] == input[src..src + |head + tail|][..|head|];
    assert input[src + |head|..src + |head| + |tail|] == input[src..src + |head + tail|][|head|..];
  }

  // ---------------------------------------------------------------- the two users of the helper

  /** The words up to a NUL, or up to a limit of `length` words that does not split a pair. */
  ghost predicate Leaves(input: seq<Word>, length: int, text: seq<Word>) {
    && NoNul(text) && |text| < |input| && input[..|text|] == text && length >= |text|
    && if length == |text| then Boundary(text, |text|) else input[|text|] == 0
  }

  /** Makes a string object out of UTF-16: the size that was counted is the size that is needed. */
  method CreateInstance(szText: array<Word>, length: int, ghost text: seq<Word>) returns (str: array<Byte>)
    requires WellFormed(text) && Leaves(szText[..], length, text)
    ensures fresh(str) && str[..] == Encode(text, 0) + [0]
    ensures 1 <= str.Length && EncodedFrom(text, 0, str[..str.Length - 1]) && str[str.Length - 1] == 0
  {
    var noBytes, noWords := new Byte[0], new Word[0];
    var uh := new UnicodeHelper(szText, noBytes, noBytes, noWords);
    assert szText[..|text|] == szText[..][..|text|];
    var lengthInBytes := uh.CountNumberOfBytes(length, text);
    str := new Byte[lengthInBytes + 1];
    uh.outputUTF8, uh.outputUTF8_size := str, lengthInBytes + 1;
    var done := uh.ConvertToUTF8(length, text);
    assert str[..] == str[..lengthInBytes] + [0];
    EncodesText(text, str[..lengthInBytes]);
  }

  method CountText(uh: UnicodeHelper, ghost text: seq<Word>) returns (length: int)
    requires uh.Holds(Encode(text, 0), uh.input8) && WellFormed(text) && NoNul(text)
    requires uh.Stops(uh.input8 + |Encode(text, 0)|, false)
    ensures length == |text|
  {
    uh.CountsWords(text, -1);
    length := uh.CountNumberOfCharacters(-1);
  }

  /** Makes UTF-16 out of the bytes of a string. */
  method Assign(szText: array<Byte>, ghost text: seq<Word>) returns (wide: array<Word>)
    requires WellFormed(text) && NoNul(text) && Encode(text, 0) + [0] <= szText[..]
    ensures fresh(wide) && wide[..] == Decoded(text) + [0]
    ensures wide.Length == |text| + 1 && wide[|text|] == 0
    ensures forall i | 0 <= i < |text| ::
              wide[i] == if 0xD800 <= text[i] <= 0xDBFF then text[i] + 64 else text[i]
  {
    var noBytes, noWords := new Byte[0], new Word[0];
    var uh := new UnicodeHelper(noWords, noBytes, szText, noWords);
    ghost var bytes := Encode(text, 0);
    assert szText[..|bytes|] == (bytes + [0])[..|bytes|] && szText[|bytes|] == (bytes + [0])[|bytes|];
    var length := CountText(uh, text);
    wide := new Word[length + 1];
    uh.outputUTF16, uh.outputUTF16_size := wide, length + 1;
    var done := uh.ConvertFromUTF8(length, text);
    assert wide[length] == 0;
    WithLast(wide[..], length);
    assert forall i | 0 <= i < |text| :: wide[i] == wide[..][i] == Decoded(text)[i];
  }

  lemma WithLast(s: seq<Word>, n: nat)
    requires |s| == n + 1
    ensures s == s[..n] + [s[n]]
  {
  }

  /** To UTF-8 and back: a text without surrogates comes back as it was, and no other does. */
  method ThereAndBack(szText: array<Word>, length: int, ghost text: seq<Word>) returns (wide: array<Word>)
    requires WellFormed(text) && Leaves(szText[..], length, text)
    ensures wide[..] == Decoded(text) + [0]
    ensures wide[..] == text + [0] <==> forall i | 0 <= i < |text| :: !High(text[i])
  {
    var str := CreateInstance(szText, length, text);
    wide := Assign(str, text);
    DecodedIsText(text);
    assert (Decoded(text) + [0])[..|text|] == Decoded(text) && (text + [0])[..|text|] == text;
  }
}
