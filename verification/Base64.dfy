/**
 The base64 encoder of the desktop application, and a decoder written from section 4 of
 RFC 4648 that it is proved against.
 */
module Base64 {
  import opened Wrappers

  type Byte = b: int | 0 <= b < 256

  const TABLE: string := "ABCDEFGHIJKLMNOPQRSTUVWXYZ" + "abcdefghijklmnopqrstuvwxyz" + "0123456789+/"

  // ---------------------------------------------------------------- the alphabet

  /** The value of a character of the base64 alphabet. */
  function Value(c: char): (v: Option<int>)
    ensures v.Some? ==> 0 <= v.value < 64
  {
    if 'A' <= c <= 'Z' then Some(c as int - 'A' as int)
    else if 'a' <= c <= 'z' then Some(c as int - 'a' as int + 26)
    else if '0' <= c <= '9' then Some(c as int - '0' as int + 52)
    else if c == '+' then Some(62)
    else if c == '/' then Some(63)
    else None
  }

  lemma Upper(i: nat)
    requires i < 26
    ensures |TABLE| == 64 && TABLE[i] as int == 'A' as int + i
  {
  }

  lemma Lower(i: nat)
    requires 26 <= i < 52
    ensures |TABLE| == 64 && TABLE[i] as int == 'a' as int + i - 26
  {
  }

  lemma Digit(i: nat)
    requires 52 <= i < 62
    ensures |TABLE| == 64 && TABLE[i] as int == '0' as int + i - 52
  {
  }

  lemma LastTwo()
    ensures |TABLE| == 64 && TABLE[62] == '+' && TABLE[63] == '/'
  {
  }

  /** The table at an index, which must be below 64. */
  function Letter(i: int): (c: char)
    requires 0 <= i < 64
    ensures Value(c) == Some(i)
  {
    LastTwo();
    if i < 26 then Upper(i); TABLE[i]
    else if i < 52 then Lower(i); TABLE[i]
    else if i < 62 then Digit(i); TABLE[i]
    else TABLE[i]
  }

  // ---------------------------------------------------------------- decoding, by the standard

  /** One final quantum: 24, 16 or 8 bits, the last two with padding and zero pad bits. */
  function DecodeLast(q: string): Option<seq<Byte>>
    requires |q| == 4
  {
    var a, b, c, d := Value(q[0]), Value(q[1]), Value(q[2]), Value(q[3]);
    if a.None? || b.None? then None
    else if q[2] == '=' then
      if q[3] == '=' && b.value % 16 == 0 then Some([a.value * 4 + b.value / 16]) else None
    else if c.None? then None
    else if q[3] == '=' then
      if c.value % 4 == 0 then Some([a.value * 4 + b.value / 16, b.value % 16 * 16 + c.value / 4]) else None
    else if d.None? then None
    else Some([a.value * 4 + b.value / 16, b.value % 16 * 16 + c.value / 4, c.value % 4 * 64 + d.value])
  }

  /** Every quantum before the last one carries three bytes. */
  function Decode(text: string): Option<seq<Byte>> {
    if text == [] then Some([])
    else if |text| < 4 then None
    else
      var first := DecodeLast(text[..4]);
      if |text| == 4 then first
      else
        var rest := Decode(text[4..]);
        if first.Some? && |first.value| == 3 && rest.Some? then Some(first.value + rest.value) else None
  }

  // ---------------------------------------------------------------- encoding

  /** The chunk's bytes in the upper bits of a 24-bit buffer. */
  function Buffer(chunk: seq<Byte>): (buf: int)
    requires 1 <= |chunk| <= 3
    ensures 0 <= buf < 0x100_0000
  {
    var a: int, b: int, c: int := chunk[0], if |chunk| > 1 then chunk[1] else 0, if |chunk| > 2 then chunk[2] else 0;
    a * 65536 + b * 256 + c
  }

  /** Shifts and masks of the buffer as divisions and remainders. The first index needs no
      mask: nothing is set above the 24 bits. */
  function EncodedChunk(chunk: seq<Byte>): (text: string)
    requires 1 <= |chunk| <= 3
    ensures |text| == 4
  {
    var buf := Buffer(chunk);
    [Letter(buf / 262144), Letter(buf / 4096 % 64),
     if |chunk| > 1 then Letter(buf / 64 % 64) else '=',
     if |chunk| > 2 then Letter(buf % 64) else '=']
  }

  function FirstChunk(input: seq<Byte>): (n: nat)
    requires input != []
    ensures 1 <= n <= 3 && n <= |input|
  {
    if |input| < 3 then |input| else 3
  }

  function Encoded(input: seq<Byte>): string {
    if input == [] then []
    else EncodedChunk(input[..FirstChunk(input)]) + Encoded(input[FirstChunk(input)..])
  }

  method EncodeChunk(chunk: seq<Byte>) returns (result: string)
    requires 1 <= |chunk| <= 3
    ensures result == EncodedChunk(chunk)
  {
    hide Letter;
    var a: int := chunk[0];
    var buf := a * 65536;
    if |chunk| > 1 {
      var b: int := chunk[1];
      buf := buf + b * 256;
    }
    if |chunk| > 2 {
      var c: int := chunk[2];
      buf := buf + c;
    }
    result := [Letter(buf / 262144)];
    result := result + [Letter(buf / 4096 % 64)];
    if |chunk| > 1 {
      result := result + [Letter(buf / 64 % 64)];
    } else {
      result := result + ['='];
    }
    if |chunk| > 2 {
      result := result + [Letter(buf % 64)];
    } else {
      result := result + ['='];
    }
  }

  method Encode(input: seq<Byte>) returns (result: string)
    ensures result == Encoded(input)
  {
    hide EncodedChunk;
    result := [];
    var at := 0;
    while at < |input|
      invariant 0 <= at <= |input|
      invariant result + Encoded(input[at..]) == Encoded(input)
    {
      var end := if at + 3 <= |input| then at + 3 else |input|;
      var text := EncodeChunk(input[at..end]);
      ghost var rest := input[at..];
      assert rest[..FirstChunk(rest)] == input[at..end] && rest[FirstChunk(rest)..] == input[end..];
      result := result + text;
      at := end;
    }
  }

  // ---------------------------------------------------------------- the round trip

  /** The six-bit values of a buffer, in terms of its bytes. */
  lemma Bits(a: int, b: int, c: int, buf: int)
    requires 0 <= a < 256 && 0 <= b < 256 && 0 <= c < 256 && buf == a * 65536 + b * 256 + c
    ensures buf / 262144 == a / 4
    ensures buf / 4096 % 64 == a % 4 * 16 + b / 16
    ensures buf / 64 % 64 == b % 16 * 4 + c / 64
    ensures buf % 64 == c % 64
  {
    assert buf / 262144 == a / 4;
    assert buf / 4096 == a * 16 + b / 16;
    assert buf / 64 == a * 1024 + b * 4 + c / 64;
  }

  /** The characters of a chunk, by the bytes it has or zeros in their place. */
  lemma ChunkCharacters(chunk: seq<Byte>, a: int, b: int, c: int)
    requires 1 <= |chunk| <= 3 && a == chunk[0]
    requires b == if |chunk| > 1 then chunk[1] else 0
    requires c == if |chunk| > 2 then chunk[2] else 0
    ensures var q := EncodedChunk(chunk);
      && Value(q[0]) == Some(a / 4) && Value(q[1]) == Some(a % 4 * 16 + b / 16)
      && (if |chunk| > 1 then q[2] != '=' && Value(q[2]) == Some(b % 16 * 4 + c / 64) else q[2] == '=')
      && (if |chunk| > 2 then q[3] != '=' && Value(q[3]) == Some(c % 64) else q[3] == '=')
  {
    hide Letter;
    Bits(a, b, c, Buffer(chunk));
  }

  lemma ChunkDecodes(chunk: seq<Byte>)
    requires 1 <= |chunk| <= 3
    ensures DecodeLast(EncodedChunk(chunk)) == Some(chunk)
  {
    hide EncodedChunk, Value;
    var a: int, b: int, c: int := chunk[0], if |chunk| > 1 then chunk[1] else 0, if |chunk| > 2 then chunk[2] else 0;
    ChunkCharacters(chunk, a, b, c);
    Regroup(a, b, c);
    match |chunk|
    case 1 => assert chunk == [a];
    case 2 => assert chunk == [a, b];
    case _ => assert chunk == [a, b, c];
  }

  lemma Regroup(a: int, b: int, c: int)
    requires 0 <= a < 256 && 0 <= b < 256 && 0 <= c < 256
    ensures var v1, v2 := a % 4 * 16 + b / 16, b % 16 * 4 + c / 64;
      && a / 4 * 4 + v1 / 16 == a && v1 % 16 * 16 + v2 / 4 == b && v2 % 4 * 64 + c % 64 == c
      && (b == 0 ==> v1 % 16 == 0) && (c == 0 ==> v2 % 4 == 0)
  {
  }

  /** Decoding recovers every input. */
  lemma {:induction false} EncodedDecodes(input: seq<Byte>)
    ensures Decode(Encoded(input)) == Some(input)
  {
    hide EncodedChunk, DecodeLast;
    if input != [] {
      var n := FirstChunk(input);
      var chunk, rest := input[..n], input[n..];
      ChunkDecodes(chunk);
      EncodedDecodes(rest);
      EncodedShape(rest);
      var text := EncodedChunk(chunk) + Encoded(rest);
      assert text[..4] == EncodedChunk(chunk) && text[4..] == Encoded(rest);
      assert if rest == [] then chunk == input else chunk + rest == input;
    }
  }

  predicate Padded(text: string, padding: nat) {
    padding <= |text| && forall i :: 0 <= i < |text| ==>
      if i < |text| - padding then Value(text[i]).Some? else text[i] == '='
  }

  lemma ChunkShape(chunk: seq<Byte>)
    requires 1 <= |chunk| <= 3
    ensures Padded(EncodedChunk(chunk), 3 - |chunk|)
  {
    hide Letter, Buffer;
  }

  /** Four characters for every three bytes or part of them; padding at the very end only. */
  lemma {:induction false} EncodedShape(input: seq<Byte>)
    ensures |Encoded(input)| == 4 * ((|input| + 2) / 3)
    ensures Padded(Encoded(input), (3 - |input| % 3) % 3)
  {
    hide EncodedChunk, Value;
    if input != [] {
      var n := FirstChunk(input);
      ChunkShape(input[..n]);
      EncodedShape(input[n..]);
    }
  }

  lemma ValueInjective(c: char, d: char)
    requires Value(c).Some? && Value(c) == Value(d)
    ensures c == d
  {
  }

  /** The values behind four characters, regrouped into bytes and back. */
  lemma Ungroup(v0: int, v1: int, v2: int, v3: int)
    requires 0 <= v0 < 64 && 0 <= v1 < 64 && 0 <= v2 < 64 && 0 <= v3 < 64
    ensures var a, b, c := v0 * 4 + v1 / 16, v1 % 16 * 16 + v2 / 4, v2 % 4 * 64 + v3;
      a / 4 == v0 && a % 4 * 16 + b / 16 == v1 && b % 16 * 4 + c / 64 == v2 && c % 64 == v3
  {
  }

  lemma QuantumEncodes(q: string)
    requires |q| == 4 && DecodeLast(q).Some?
    ensures 1 <= |DecodeLast(q).value| <= 3 && EncodedChunk(DecodeLast(q).value) == q
  {
    hide Value, EncodedChunk;
    var chunk := DecodeLast(q).value;
    var v0, v1 := Value(q[0]).value, Value(q[1]).value;
    var v2 := if |chunk| > 1 then Value(q[2]).value else 0;
    var v3 := if |chunk| > 2 then Value(q[3]).value else 0;
    Ungroup(v0, v1, v2, v3);
    var a: int, b: int, c: int := chunk[0], if |chunk| > 1 then chunk[1] else 0, if |chunk| > 2 then chunk[2] else 0;
    ChunkCharacters(chunk, a, b, c);
    var text := EncodedChunk(chunk);
    ValueInjective(text[0], q[0]);
    ValueInjective(text[1], q[1]);
    if |chunk| > 1 { ValueInjective(text[2], q[2]); }
    if |chunk| > 2 { ValueInjective(text[3], q[3]); }
  }

  /** The encoding is the only text that decodes to its input. */
  lemma {:induction false} DecodedEncodes(text: string)
    requires Decode(text).Some?
    ensures Encoded(Decode(text).value) == text
  {
    hide DecodeLast, EncodedChunk;
    if text != [] {
      QuantumEncodes(text[..4]);
      var bytes, chunk := Decode(text).value, DecodeLast(text[..4]).value;
      assert text == text[..4] + text[4..];
      if |text| == 4 {
        assert bytes[..|chunk|] == chunk && bytes[|chunk|..] == [];
      } else {
        DecodedEncodes(text[4..]);
        assert bytes[..3] == chunk && bytes[3..] == Decode(text[4..]).value;
      }
    }
  }
}
