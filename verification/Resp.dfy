/**
 The reply parser of the Redis client and its meaning. A reply is parsed afresh from the
 accumulated text each time more of it arrives, so everything hinges on `Incomplete`
 being said exactly while a reply is being cut short. Text is one character per byte.
 A bulk header whose length is not a number from -1 up is outside this model (`Outside`).
 */
module Resp {
  import opened Wrappers

  datatype Response = Text(text: string) | Number(number: int) | NotANumber | Null | List(items: seq<Response>)

  datatype Parsed = Done(value: Response, next: nat) | Incomplete | Failed(message: string) | Outside
  datatype ParsedItems = Items(values: seq<Response>, end: nat) | NoItems(why: Parsed)

  const CRLF := "\r\n"

  // ---------------------------------------------------------------- lines and numbers

  predicate BreakAt(buffer: string, i: int) {
    0 <= i && i + 1 < |buffer| && buffer[i] == '\r' && buffer[i + 1] == '\n'
  }

  /** The first line break at or after an offset. */
  function FindBreak(buffer: string, from: nat): (r: Option<nat>)
    ensures r.Some? ==> from <= r.value && BreakAt(buffer, r.value)
    ensures r.Some? ==> forall i :: from <= i < r.value ==> !BreakAt(buffer, i)
    ensures r.None? ==> forall i :: from <= i ==> !BreakAt(buffer, i)
    decreases |buffer| - from
  {
    if |buffer| <= from + 1 then None
    else if BreakAt(buffer, from) then Some(from)
    else FindBreak(buffer, from + 1)
  }

  predicate IsDigit(c: char) { '0' <= c <= '9' }

  predicate IsSpace(c: char) { c in [' ', '\t', '\n', '\r', 11 as char, 12 as char] }

  function TrimLeft(s: string): string {
    if s != [] && IsSpace(s[0]) then TrimLeft(s[1..]) else s
  }

  function DigitPrefix(s: string): (r: string)
    ensures forall c :: c in r ==> IsDigit(c)
  {
    if s != [] && IsDigit(s[0]) then [s[0]] + DigitPrefix(s[1..]) else []
  }

  function DigitsValue(s: string): nat
    requires forall c :: c in s ==> IsDigit(c)
  {
    if s == [] then 0 else assert IsDigit(s[|s| - 1]); 10 * DigitsValue(s[..|s| - 1]) + (s[|s| - 1] as int - '0' as int)
  }

  /** Number.parseInt(line, 10): leading blanks, a sign, then as many digits as there are. */
  function ParseInt(line: string): Option<int> {
    var s := TrimLeft(line);
    var signed := s != [] && (s[0] == '-' || s[0] == '+');
    var digits := DigitPrefix(if signed then s[1..] else s);
    if digits == [] then None
    else Some(if signed && s[0] == '-' then -(DigitsValue(digits) as int) else DigitsValue(digits))
  }

  // ---------------------------------------------------------------- parsing

  /** The reply that starts at an offset of the text received so far. */
  function Parse(buffer: string, offset: nat): (r: Parsed)
    ensures r.Done? ==> offset < r.next <= |buffer|
    decreases |buffer| - offset, 0
  {
    if |buffer| <= offset then Incomplete
    else if buffer[offset] !in "+-:$*" then Failed("Unsupported RESP prefix: " + [buffer[offset]])
    else
      match FindBreak(buffer, offset + 1)
      case None => Incomplete
      case Some(end) =>
        var line := buffer[offset + 1..end];
        match buffer[offset]
        case '+' => Done(Text(line), end + 2)
        case '-' => Failed(line)
        case ':' => Done(if ParseInt(line).Some? then Number(ParseInt(line).value) else NotANumber, end + 2)
        case '$' => ParseBulk(buffer, end + 2, ParseInt(line))
        case _ =>
          if ParseInt(line) == Some(-1) then Done(Null, end + 2)
          else
            match ParseItems(buffer, end + 2, if ParseInt(line).Some? then ParseInt(line).value else 0)
            case Items(values, next) => Done(List(values), next)
            case NoItems(why) => why
  }

  function ParseBulk(buffer: string, start: nat, length: Option<int>): (r: Parsed)
    requires start <= |buffer|
    ensures r.Done? ==> start <= r.next <= |buffer|
  {
    if length.None? || length.value < -1 then Outside
    else if length.value == -1 then Done(Null, start)
    else if |buffer| < start + length.value + 2 then Incomplete
    else Done(Text(buffer[start..start + length.value]), start + length.value + 2)
  }

  function ParseItems(buffer: string, offset: nat, count: int): (r: ParsedItems)
    requires offset <= |buffer|
    ensures r.Items? ==> offset <= r.end <= |buffer|
    ensures r.NoItems? ==> !r.why.Done?
    decreases |buffer| - offset, 1
  {
    if count <= 0 then Items([], offset)
    else
      match Parse(buffer, offset)
      case Done(value, next) =>
        (match ParseItems(buffer, next, count - 1)
         case Items(values, end) => Items([value] + values, end)
         case NoItems(why) => NoItems(why))
      case other => NoItems(other)
  }

  /** parseRespValue: the nested values are pushed one by one as the offset advances. */
  method ParseRespValue(buffer: string, offset: nat) returns (r: Parsed)
    ensures r == Parse(buffer, offset)
    decreases |buffer| - offset
  {
    if |buffer| <= offset { return Incomplete; }
    var prefix := buffer[offset];
    if prefix !in "+-:$*" { return Failed("Unsupported RESP prefix: " + [prefix]); }
    var lineEnd := FindBreak(buffer, offset + 1);
    if lineEnd.None? { return Incomplete; }
    var line, nextOffset := buffer[offset + 1..lineEnd.value], lineEnd.value + 2;
    match prefix
    case '+' => return Done(Text(line), nextOffset);
    case '-' => return Failed(line);
    case ':' =>
      var n := ParseInt(line);
      return Done(if n.Some? then Number(n.value) else NotANumber, nextOffset);
    case '$' => return ParseBulk(buffer, nextOffset, ParseInt(line));
    case _ =>
      var n := ParseInt(line);
      if n == Some(-1) { return Done(Null, nextOffset); }
      var count := if n.Some? then n.value else 0;
      var values, currentOffset, index := [], nextOffset, 0;
      while index < count
        invariant 0 <= index && (index <= count || index == 0)
        invariant nextOffset <= currentOffset <= |buffer|
        invariant ParseItems(buffer, nextOffset, count) ==
          Prefixed(values, ParseItems(buffer, currentOffset, count - index))
      {
        var parsed := ParseRespValue(buffer, currentOffset);
        if !parsed.Done? { return parsed; }
        PrefixedTwice(values, parsed.value, ParseItems(buffer, parsed.next, count - index - 1));
        values := values + [parsed.value];
        currentOffset := parsed.next;
        index := index + 1;
      }
      assert values + [] == values;
      return Done(List(values), currentOffset);
  }

  function Prefixed(values: seq<Response>, rest: ParsedItems): ParsedItems {
    match rest
    case Items(more, end) => Items(values + more, end)
    case NoItems(why) => NoItems(why)
  }

  lemma PrefixedTwice(values: seq<Response>, value: Response, rest: ParsedItems)
    ensures Prefixed(values, Prefixed([value], rest)) == Prefixed(values + [value], rest)
  {
    if rest.Items? { assert values + ([value] + rest.values) == values + [value] + rest.values; }
  }

  // ---------------------------------------------------------------- more text arrives

  lemma BreakStable(buffer: string, more: string, from: nat)
    requires FindBreak(buffer, from).Some?
    ensures FindBreak(buffer + more, from) == FindBreak(buffer, from)
  {
    var i := FindBreak(buffer, from).value;
    assert BreakAt(buffer + more, i);
    assert forall k :: from <= k < i && BreakAt(buffer + more, k) ==> BreakAt(buffer, k);
  }

  lemma BulkStable(buffer: string, start: nat, length: Option<int>, more: string)
    requires start <= |buffer| && !ParseBulk(buffer, start, length).Incomplete?
    ensures ParseBulk(buffer + more, start, length) == ParseBulk(buffer, start, length)
  {
    if length.Some? && 0 <= length.value {
      var stop := start + length.value;
      assert (buffer + more)[start..stop] == buffer[start..stop];
    }
  }

  /** A verdict, good or bad, is final: text that arrives later does not change it. */
  lemma {:induction false} ParseStable(buffer: string, offset: nat, more: string)
    requires !Parse(buffer, offset).Incomplete?
    ensures Parse(buffer + more, offset) == Parse(buffer, offset)
    decreases |buffer| - offset, 0
  {
    hide ParseBulk, ParseInt, FindBreak;
    if buffer[offset] in "+-:$*" {
      BreakStable(buffer, more, offset + 1);
      var end := FindBreak(buffer, offset + 1).value;
      var line := buffer[offset + 1..end];
      assert (buffer + more)[offset + 1..end] == line;
      if buffer[offset] == '$' {
        BulkStable(buffer, end + 2, ParseInt(line), more);
      } else if buffer[offset] == '*' && ParseInt(line) != Some(-1) {
        ItemsStable(buffer, end + 2, if ParseInt(line).Some? then ParseInt(line).value else 0, more);
      }
    }
  }

  lemma {:induction false} ItemsStable(buffer: string, offset: nat, count: int, more: string)
    requires offset <= |buffer| && ParseItems(buffer, offset, count) != NoItems(Incomplete)
    ensures ParseItems(buffer + more, offset, count) == ParseItems(buffer, offset, count)
    decreases |buffer| - offset, 1
  {
    if 0 < count {
      ParseStable(buffer, offset, more);
      match Parse(buffer, offset)
      case Done(_, next) => ItemsStable(buffer, next, count - 1, more);
      case _ =>
    }
  }
}
