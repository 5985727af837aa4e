/** The SMDP wire layer (smdp.h): the twelve message tags, the 4-byte
    unsigned integer frame and the length-prefixed string frame, read from
    and written to one end of a byte stream.

    The socket is a pair of byte sequences: `input` holds what the peer has
    sent and this end has not read yet, `output` everything this end wrote.
    Integers are encoded little-endian (the host order of the machines the
    programs run on); both ends use the same order. A read either delivers
    every byte it asks for or fails: the failure is the `error()` abort. */
module Smdp {

  /** unsigned char */
  type byte = x: int | 0 <= x < 0x100
  type Bytes = seq<byte>

  const U32_RANGE: int := 0x1_0000_0000
  const I32_RANGE: int := 0x8000_0000

  /** uint32_t */
  type u32 = x: int | 0 <= x < 0x1_0000_0000

  datatype Option<T> = None | Some(value: T)

  /** The message tags of smdp.h, in the order of their values 0 .. 11. */
  datatype Tag =
    | Echo | List | User | Pass | Accept | Deny
    | Row | File | Random | NoFile | Upload | Close

  /** The numeric value of a tag on the wire. */
  function Code(t: Tag): (c: u32)
    ensures c < 12
  {
    match t
    case Echo => 0
    case List => 1
    case User => 2
    case Pass => 3
    case Accept => 4
    case Deny => 5
    case Row => 6
    case File => 7
    case Random => 8
    case NoFile => 9
    case Upload => 10
    case Close => 11
  }

  /** The tag a received value stands for, if any. */
  function TagOf(c: u32): (t: Option<Tag>)
    ensures t.Some? <==> c < 12
  {
    if c == 0 then Some(Echo)
    else if c == 1 then Some(List)
    else if c == 2 then Some(User)
    else if c == 3 then Some(Pass)
    else if c == 4 then Some(Accept)
    else if c == 5 then Some(Deny)
    else if c == 6 then Some(Row)
    else if c == 7 then Some(File)
    else if c == 8 then Some(Random)
    else if c == 9 then Some(NoFile)
    else if c == 10 then Some(Upload)
    else if c == 11 then Some(Close)
    else None
  }

  /** Decoding a tag's value gives the tag back. */
  lemma TagOfCode(t: Tag)
    ensures TagOf(Code(t)) == Some(t)
  {
  }

  /** Every value below 12 is the value of exactly the tag TagOf names. */
  lemma CodeOfTagOf(c: u32)
    requires c < 12
    ensures Code(TagOf(c).value) == c
  {
  }

  /** The twelve tags have pairwise distinct values. */
  lemma CodesDistinct(t1: Tag, t2: Tag)
    ensures Code(t1) == Code(t2) <==> t1 == t2
  {
    TagOfCode(t1);
    TagOfCode(t2);
  }

  // ---------------------------------------------------------------------
  // Integer conversions of C

  /** Conversion of a C `int` (or any integer) to `uint32_t`: wrap modulo 2^32. */
  function Wrap32(x: int): (v: u32)
    ensures 0 <= x < U32_RANGE ==> v == x
    ensures 0 <= x ==> v <= x
    ensures -I32_RANGE <= x < 0 ==> v == x + U32_RANGE
  {
    x % U32_RANGE
  }

  /** Conversion of a `uint32_t` to a 32-bit `int`: values of 2^31 and more read as negative. */
  function ToInt32(v: u32): (x: int)
    ensures -I32_RANGE <= x < I32_RANGE
    ensures Wrap32(x) == v
  {
    if v < I32_RANGE then v else v - U32_RANGE
  }

  /** A 32-bit `int` survives the trip through `uint32_t`. */
  lemma ToInt32Wrap32(x: int)
    requires -I32_RANGE <= x < I32_RANGE
    ensures ToInt32(Wrap32(x)) == x
  {
  }

  // ---------------------------------------------------------------------
  // The 4-byte integer frame

  function EncodeU32(v: u32): (b: Bytes)
    ensures |b| == 4
  {
    [(v % 0x100) as byte,
     (v / 0x100 % 0x100) as byte,
     (v / 0x1_0000 % 0x100) as byte,
     (v / 0x100_0000) as byte]
  }

  function DecodeU32(b: Bytes): (v: u32)
    requires |b| == 4
  {
    (b[0] as int) + 0x100 * (b[1] as int) + 0x1_0000 * (b[2] as int) + 0x100_0000 * (b[3] as int)
  }

  /** The four base-256 digits of a 32-bit value put it back together. */
  lemma Digits(v: u32)
    ensures v == v % 0x100 + 0x100 * (v / 0x100 % 0x100)
               + 0x1_0000 * (v / 0x1_0000 % 0x100) + 0x100_0000 * (v / 0x100_0000)
  {
    var q1 := v / 0x100;
    var q2 := q1 / 0x100;
    var q3 := q2 / 0x100;
    assert v == 0x100 * q1 + v % 0x100;
    assert q1 == 0x100 * q2 + q1 % 0x100;
    assert q2 == 0x100 * q3 + q2 % 0x100;
    assert v / 0x1_0000 == q2;
    assert v / 0x100_0000 == q3;
  }

  /** Four base-256 digits are recovered from the value they make up. */
  lemma Undigits(b0: int, b1: int, b2: int, b3: int)
    requires 0 <= b0 < 0x100 && 0 <= b1 < 0x100 && 0 <= b2 < 0x100 && 0 <= b3 < 0x100
    ensures var v := b0 + 0x100 * b1 + 0x1_0000 * b2 + 0x100_0000 * b3;
      v % 0x100 == b0 && v / 0x100 % 0x100 == b1 && v / 0x1_0000 % 0x100 == b2 && v / 0x100_0000 == b3
  {
    var v := b0 + 0x100 * b1 + 0x1_0000 * b2 + 0x100_0000 * b3;
    var q1 := b1 + 0x100 * b2 + 0x1_0000 * b3;
    assert v == 0x100 * q1 + b0;
    assert v / 0x100 == q1;
    var q2 := b2 + 0x100 * b3;
    assert q1 == 0x100 * q2 + b1;
    assert v / 0x1_0000 == q2;
    assert v / 0x100_0000 == b3;
  }

  /** A tag alone on the wire. */
  function TagFrame(t: Tag): Bytes
  {
    EncodeU32(Code(t))
  }

  /** Decoding an encoded integer gives it back. */
  lemma DecodeEncode(v: u32)
    ensures DecodeU32(EncodeU32(v)) == v
  {
    var d0, d1, d2, d3 := v % 0x100, v / 0x100 % 0x100, v / 0x1_0000 % 0x100, v / 0x100_0000;
    Digits(v);
    var b := EncodeU32(v);
    assert b == [d0 as byte, d1 as byte, d2 as byte, d3 as byte];
    assert DecodeU32(b) == d0 + 0x100 * d1 + 0x1_0000 * d2 + 0x100_0000 * d3;
  }

  /** Every 4-byte group is the encoding of the integer it decodes to. */
  lemma EncodeDecode(b: Bytes)
    requires |b| == 4
    ensures EncodeU32(DecodeU32(b)) == b
  {
    var b0, b1, b2, b3 := b[0] as int, b[1] as int, b[2] as int, b[3] as int;
    Undigits(b0, b1, b2, b3);
    var v := DecodeU32(b);
    assert v == b0 + 0x100 * b1 + 0x1_0000 * b2 + 0x100_0000 * b3;
    assert EncodeU32(v) == [b0 as byte, b1 as byte, b2 as byte, b3 as byte];
  }

  /** Distinct integers have distinct frames. */
  lemma EncodeU32Injective(v: u32, w: u32)
    ensures EncodeU32(v) == EncodeU32(w) ==> v == w
  {
    DecodeEncode(v);
    DecodeEncode(w);
  }

  /** Regrouping a concatenation; calling it spares the solver from
      comparing long sequences element by element. */
  lemma AppendAssoc<T>(a: seq<T>, b: seq<T>, c: seq<T>)
    ensures (a + b) + c == a + (b + c)
  {
  }

  // ---------------------------------------------------------------------
  // Decimal digits

  /** '0' .. '9' */
  predicate IsDigit(c: byte)
  {
    0x30 <= c <= 0x39
  }

  /** The character of a digit value. */
  function DigitChar(d: int): (c: byte)
    requires 0 <= d < 10
    ensures IsDigit(c) && c as int - 0x30 == d
  {
    (0x30 + d) as byte
  }

  // ---------------------------------------------------------------------
  // C strings

  predicate NulFree(s: Bytes)
  {
    forall i :: 0 <= i < |s| ==> s[i] != 0
  }

  /** What `strlen` and `%s` see of a buffer: the bytes before the first NUL. */
  function CString(s: Bytes): (r: Bytes)
    ensures r <= s && NulFree(r)
    ensures |r| < |s| ==> s[|r|] == 0
  {
    if s == [] || s[0] == 0 then [] else [s[0]] + CString(s[1..])
  }

  /** A string with no NUL is its own C string. */
  lemma CStringOfNulFree(s: Bytes)
    requires NulFree(s)
    ensures CString(s) == s
  {
  }

  /** A buffer holding `s`, a terminator and anything after it reads as `s`
      does: what follows the stored NUL is never seen. */
  lemma {:induction false} CStringTerminated(s: Bytes, tail: Bytes)
    ensures CString(s + [0] + tail) == CString(s)
  {
    if s != [] && s[0] != 0 {
      assert (s + [0] + tail)[1..] == s[1..] + [0] + tail;
      CStringTerminated(s[1..], tail);
    }
  }

  // ---------------------------------------------------------------------
  // Reading from the input stream

  datatype Fault =
      /** the stream ended before the bytes a read asked for: `error()` */
    | Short
      /** a declared string length leaves no room in the buffer: the store
          `buf[len] = 0` (and the read before it) go out of bounds */
    | Overflow(declared: u32, capacity: nat)

  datatype Read<T> = Ok(value: T, rest: Bytes) | Fail(fault: Fault)

  /** `smdp_read_int` as a parser of the unread input. */
  function TakeInt(inp: Bytes): (r: Read<u32>)
    ensures r.Ok? <==> |inp| >= 4
    ensures r.Ok? ==> EncodeU32(r.value) + r.rest == inp
    ensures r.Fail? ==> r.fault == Short
  {
    if |inp| < 4 then Fail(Short)
    else
      EncodeDecode(inp[..4]);
      Ok(DecodeU32(inp[..4]), inp[4..])
  }

  /** The length check that `smdp_read_str` performs, as written: `len` is a
      signed `int`, so a declared length of 2^31 or more reads as negative
      and raises no warning. */
  predicate WarnsOverflow(declared: u32, buflen: nat)
  {
    ToInt32(declared) >= buflen
  }

  /** The check the store `buf[len] = 0` needs: the declared length, taken
      as the unsigned value it is on the wire, leaves room for the NUL. */
  predicate FitsBuffer(declared: u32, buflen: nat)
  {
    declared < buflen
  }

  /** As written, the warning misses the lengths that read as negative:
      2^31 is not reported for a 1024-byte buffer, yet it does not fit. */
  lemma WarningMissesNegativeLength()
    ensures !WarnsOverflow(0x8000_0000, 1024) && !FitsBuffer(0x8000_0000, 1024)
  {
  }

  /** The corrected check admits exactly the lengths whose terminator store
      `buf[len]` lands inside a buffer of `buflen` bytes. */
  lemma FitsBufferInBounds(declared: u32, buflen: nat)
    requires buflen <= I32_RANGE
    ensures FitsBuffer(declared, buflen) <==> 0 <= ToInt32(declared) < buflen
    ensures FitsBuffer(declared, buflen) ==> WarnsOverflow(declared, buflen) == false
  {
  }

  /** `read(sock, buf, count)` as a parser: all `count` bytes or `Short`. */
  function TakeBytes(inp: Bytes, count: nat): (r: Read<Bytes>)
    ensures r.Ok? <==> count <= |inp|
    ensures r.Ok? ==> |r.value| == count && r.value + r.rest == inp
    ensures r.Fail? ==> r.fault == Short
  {
    if |inp| < count then Fail(Short)
    else
      assert inp[..count] + inp[count..] == inp;
      Ok(inp[..count], inp[count..])
  }

  /** `smdp_read_str` into a buffer of `buflen` bytes, as a parser of the
      unread input: the declared length, then exactly that many bytes. */
  function TakeStr(inp: Bytes, buflen: nat): (r: Read<Bytes>)
    ensures r.Ok? <==>
      |inp| >= 4 && FitsBuffer(DecodeU32(inp[..4]), buflen) && |inp| >= 4 + DecodeU32(inp[..4])
    ensures r.Fail? && r.fault.Overflow? <==>
      |inp| >= 4 && !FitsBuffer(DecodeU32(inp[..4]), buflen)
    ensures r.Ok? ==> |r.value| < buflen && |r.value| < U32_RANGE && EncodeU32(|r.value|) + r.value + r.rest == inp
  {
    match TakeInt(inp)
    case Fail(f) => Fail(f)
    case Ok(len, rest) =>
      if !FitsBuffer(len, buflen) then Fail(Overflow(len, buflen))
      else if |rest| < len then Fail(Short)
      else
        assert inp[..4] + inp[4..] == inp;
        EncodeU32Injective(len, DecodeU32(inp[..4]));
        EncodeDecode(inp[..4]);
        assert rest[..len] + rest[len..] == rest;
        Ok(rest[..len], rest[len..])
  }

  // ---------------------------------------------------------------------
  // Writing to the output stream

  /** What `smdp_write_str(s)` sends: `strlen(s)` converted to `uint32_t`,
      then that many bytes of `s`, with no terminator. */
  function EncodeStr(s: Bytes): (b: Bytes)
  {
    var str := CString(s);
    var len := Wrap32(|str|);
    EncodeU32(len) + str[..len]
  }

  /** The string frame never carries a NUL after its length. */
  lemma EncodeStrShape(s: Bytes)
    requires |CString(s)| < U32_RANGE
    ensures EncodeStr(s) == EncodeU32(|CString(s)|) + CString(s)
    ensures NulFree(EncodeStr(s)[4..])
  {
    var str := CString(s);
    assert Wrap32(|str|) == |str|;
    assert str[..|str|] == str;
  }

  lemma IntRoundTrip(v: u32, rest: Bytes)
    ensures TakeInt(EncodeU32(v) + rest) == Ok(v, rest)
  {
    var inp := EncodeU32(v) + rest;
    assert inp[..4] == EncodeU32(v);
    DecodeEncode(v);
  }

  /** A NUL-free string that fits the reader's buffer comes back unchanged,
      and the reader stops exactly at the end of its frame. */
  lemma StrRoundTrip(s: Bytes, rest: Bytes, buflen: nat)
    requires NulFree(s) && |s| < buflen && |s| < U32_RANGE
    ensures TakeStr(EncodeStr(s) + rest, buflen) == Ok(s, rest)
  {
    CStringOfNulFree(s);
    var inp := EncodeStr(s) + rest;
    assert inp == EncodeU32(|s|) + (s + rest);
    IntRoundTrip(|s|, s + rest);
    assert (s + rest)[..|s|] == s && (s + rest)[|s|..] == rest;
  }

  /** memset(a, 0, a.Length) */
  method Clear(a: array<byte>)
    modifies a
    ensures forall i :: 0 <= i < a.Length ==> a[i] == 0
  {
    forall i | 0 <= i < a.Length {
      a[i] := 0;
    }
  }

  // ---------------------------------------------------------------------
  // One end of the socket

  class Channel {
    /** bytes the peer has sent that this end has not read yet */
    var input: Bytes
    /** every byte this end has written */
    var output: Bytes

    constructor (incoming: Bytes)
      ensures input == incoming && output == []
    {
      input := incoming;
      output := [];
    }

    /** smdp_read_int */
    method ReadInt() returns (v: u32, fault: Option<Fault>)
      modifies this`input
      ensures var r := TakeInt(old(input));
        if r.Ok? then fault == None && v == r.value && input == r.rest
        else fault == Some(r.fault)
    {
      if |input| < 4 {
        return 0, Some(Short);
      }
      v := DecodeU32(input[..4]);
      input := input[4..];
      fault := None;
    }

    /** smdp_read_str(sock, buf, buf.Length): the string goes to buf[0..n),
        a NUL to buf[n], and the rest of the buffer is untouched. */
    method ReadStr(buf: array<byte>) returns (n: nat, fault: Option<Fault>)
      modifies this`input, buf
      ensures var r := TakeStr(old(input), buf.Length);
        if r.Ok? then
          fault == None && n == |r.value| && n < buf.Length && input == r.rest &&
          buf[..n] == r.value && buf[n] == 0 && buf[n + 1..] == old(buf[n + 1..]) &&
          CString(buf[..]) == CString(r.value)
        else
          fault == Some(r.fault) && buf[..] == old(buf[..])
    {
      var len;
      len, fault := ReadInt();
      if fault.Some? {
        return 0, fault;
      }
      if !FitsBuffer(len, buf.Length) {
        // "Possible buffer overflow": the code goes on to store buf[len] out of bounds
        return 0, Some(Overflow(len, buf.Length));
      }
      if |input| < len {
        return 0, Some(Short);
      }
      var bytes := input[..len];
      forall i | 0 <= i < len {
        buf[i] := bytes[i];
      }
      buf[len] := 0;
      input := input[len..];
      n := len;
      CStringTerminated(buf[..n], buf[n + 1..]);
      assert buf[..] == buf[..n] + [0] + buf[n + 1..];
    }

    /** read(sock, buf, count), delivering all `count` bytes or failing */
    method Read(count: nat) returns (data: Bytes, fault: Option<Fault>)
      modifies this`input
      ensures var r := TakeBytes(old(input), count);
        if r.Ok? then fault == None && data == r.value && input == r.rest
        else fault == Some(r.fault)
    {
      if |input| < count {
        return [], Some(Short);
      }
      data := input[..count];
      input := input[count..];
      fault := None;
    }

    /** smdp_write_int */
    method WriteInt(v: u32)
      modifies this`output
      ensures output == old(output) + EncodeU32(v)
    {
      output := output + EncodeU32(v);
    }

    /** smdp_write_str */
    method WriteStr(s: Bytes)
      modifies this`output
      ensures output == old(output) + EncodeStr(s)
    {
      var str := CString(s);
      var len := Wrap32(|str|);
      WriteInt(len);
      Write(str[..len]);
    }

    /** write(sock, data, |data|) */
    method Write(data: Bytes)
      modifies this`output
      ensures output == old(output) + data
    {
      output := output + data;
    }
  }
}
