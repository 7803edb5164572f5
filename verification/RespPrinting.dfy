/** The replies a Redis server prints (the RESP2 serialization protocol), the commands the
    client prints, and what the parser makes of both. */
module RespPrinting {
  import opened Wrappers
  import opened Resp

  datatype Wire =
    | Simple(text: string)
    | Int(number: int)
    | Bulk(content: string)
    | NullBulk
    | NullArray
    | Array(elements: seq<Wire>)
    | Error(message: string)

  // ---------------------------------------------------------------- printing

  function Digit(d: nat): char
    requires d < 10
  {
    (d + '0' as int) as char
  }

  function DecimalNat(n: nat): string {
    if n < 10 then [Digit(n)] else DecimalNat(n / 10) + [Digit(n % 10)]
  }

  function Decimal(n: int): string {
    if n < 0 then "-" + DecimalNat(-n) else DecimalNat(n)
  }

  function Line(prefix: char, body: string): string {
    [prefix] + body + CRLF
  }

  function Print(w: Wire): string {
    match w
    case Simple(text) => Line('+', text)
    case Int(number) => Line(':', Decimal(number))
    case Bulk(content) => Line('$', Decimal(|content|)) + content + CRLF
    case NullBulk => Line('$', "-1")
    case NullArray => Line('*', "-1")
    case Array(elements) => Line('*', Decimal(|elements|)) + PrintAll(elements)
    case Error(message) => Line('-', message)
  }

  function PrintAll(ws: seq<Wire>): string {
    if ws == [] then "" else Print(ws[0]) + PrintAll(ws[1..])
  }

  /** A simple string or an error may not hold a line break of any kind; everything else is free. */
  predicate Printable(w: Wire) {
    match w
    case Simple(text) => '\r' !in text
    case Error(message) => '\r' !in message
    case Array(elements) => forall e :: e in elements ==> Printable(e)
    case _ => true
  }

  /** The value of a reply without errors. */
  function ValueOf(w: Wire): Response {
    match w
    case Simple(text) => Text(text)
    case Int(number) => Number(number)
    case Bulk(content) => Text(content)
    case NullBulk => Null
    case NullArray => Null
    case Array(elements) => List(ValuesOf(elements))
    case Error(_) => Null
  }

  function ValuesOf(ws: seq<Wire>): (r: seq<Response>)
    ensures |r| == |ws|
  {
    if ws == [] then [] else [ValueOf(ws[0])] + ValuesOf(ws[1..])
  }

  /** The first error in the order of printing, at whatever depth. */
  function FirstError(w: Wire): Option<string> {
    match w
    case Error(message) => Some(message)
    case Array(elements) => FirstErrorOf(elements)
    case _ => None
  }

  function FirstErrorOf(ws: seq<Wire>): Option<string> {
    if ws == [] then None else if FirstError(ws[0]).Some? then FirstError(ws[0]) else FirstErrorOf(ws[1..])
  }

  /** What is printed up to and with the first error, or all of it. */
  function UpToError(w: Wire): string {
    match w
    case Array(elements) => Line('*', Decimal(|elements|)) + UpToErrorOf(elements)
    case _ => Print(w)
  }

  function UpToErrorOf(ws: seq<Wire>): string {
    if ws == [] then "" else UpToError(ws[0]) + if FirstError(ws[0]).Some? then "" else UpToErrorOf(ws[1..])
  }

  lemma {:induction false} UpToErrorPrefix(w: Wire)
    ensures UpToError(w) <= Print(w) && (FirstError(w).None? ==> UpToError(w) == Print(w))
  {
    if w.Array? { UpToErrorOfPrefix(w.elements); }
  }

  lemma {:induction false} UpToErrorOfPrefix(ws: seq<Wire>)
    ensures UpToErrorOf(ws) <= PrintAll(ws) && (FirstErrorOf(ws).None? ==> UpToErrorOf(ws) == PrintAll(ws))
  {
    hide Print, UpToError, FirstError;
    if ws != [] {
      UpToErrorPrefix(ws[0]);
      UpToErrorOfPrefix(ws[1..]);
    }
  }

  // ---------------------------------------------------------------- decimals

  lemma {:induction false} DecimalDigits(n: nat)
    ensures DecimalNat(n) != [] && forall c :: c in DecimalNat(n) ==> IsDigit(c)
    ensures DigitsValue(DecimalNat(n)) == n
  {
    if n >= 10 {
      DecimalDigits(n / 10);
      var s := DecimalNat(n);
      assert s[..|s| - 1] == DecimalNat(n / 10);
    }
  }

  lemma {:induction false} DigitPrefixAll(s: string)
    requires forall c :: c in s ==> IsDigit(c)
    ensures DigitPrefix(s) == s
  {
    if s != [] {
      assert s[0] in s;
      DigitPrefixAll(s[1..]);
    }
  }

  lemma DigitsParse(digits: string)
    requires digits != [] && forall c :: c in digits ==> IsDigit(c)
    ensures ParseInt(digits) == Some(DigitsValue(digits))
    ensures ParseInt("-" + digits) == Some(-(DigitsValue(digits) as int))
  {
    hide DigitsValue, DigitPrefix;
    DigitPrefixAll(digits);
    assert digits[0] in digits;
    assert ("-" + digits)[1..] == digits;
  }

  /** Number.parseInt reads back what was printed, and a printed number breaks no line. */
  lemma DecimalParses(n: int)
    ensures ParseInt(Decimal(n)) == Some(n) && '\r' !in Decimal(n)
  {
    hide ParseInt, DecimalNat;
    DecimalDigits(if n < 0 then -n else n);
    DigitsParse(DecimalNat(if n < 0 then -n else n));
  }

  predicate AllDigits(s: string) {
    forall k :: 0 <= k < |s| ==> '0' <= s[k] <= '9'
  }

  predicate Blank(c: char) {
    c == ' ' || c == '\t' || c == '\n' || c == '\r' || c == 11 as char || c == 12 as char
  }

  predicate AllBlank(s: string) {
    forall k :: 0 <= k < |s| ==> Blank(s[k])
  }

  lemma {:induction false} DigitPrefixStops(digits: string, rest: string)
    requires AllDigits(digits) && (rest != "" ==> !('0' <= rest[0] <= '9'))
    ensures DigitPrefix(digits + rest) == digits
  {
    if digits == [] {
      assert digits + rest == rest;
    } else {
      DigitPrefixStops(digits[1..], rest);
      assert (digits + rest)[1..] == digits[1..] + rest;
    }
  }

  lemma {:induction false} TrimStops(blanks: string, rest: string)
    requires AllBlank(blanks) && (rest != "" ==> !Blank(rest[0]))
    ensures TrimLeft(blanks + rest) == rest
  {
    if blanks == [] {
      assert blanks + rest == rest;
    } else {
      TrimStops(blanks[1..], rest);
      assert (blanks + rest)[1..] == blanks[1..] + rest;
    }
  }

  /** How a line is read as a number, whatever stands in it: blanks, at most one sign, digits,
      and anything after them; without digits there is none. */
  lemma LineNumber(blanks: string, sign: string, digits: string, rest: string)
    requires AllBlank(blanks) && AllDigits(digits) && (sign == "" || sign == "+" || sign == "-")
    requires rest != "" ==> !('0' <= rest[0] <= '9')
    requires digits == "" && sign == "" && rest != "" ==> rest[0] != '+' && rest[0] != '-' && !Blank(rest[0])
    ensures var n := ParseInt(blanks + sign + digits + rest);
      if digits == "" then n == None
      else n == Some(if sign == "-" then -DecimalValue(digits) else DecimalValue(digits))
  {
    hide DigitPrefix, TrimLeft, DigitsValue, DecimalValue;
    var s := sign + digits + rest;
    assert blanks + sign + digits + rest == blanks + s;
    assert digits != "" ==> '0' <= digits[0] <= '9';
    assert s != "" ==> !Blank(s[0]);
    TrimStops(blanks, s);
    DigitPrefixStops(digits, rest);
    assert sign != "" ==> s[1..] == digits + rest && s[0] == sign[0];
    assert sign == "" ==> s == digits + rest;
    DecimalValueIs(digits);
  }

  function DecimalValue(digits: string): int
    requires AllDigits(digits)
  {
    if digits == "" then 0 else 10 * DecimalValue(digits[..|digits| - 1]) + (digits[|digits| - 1] as int - 48)
  }

  lemma {:induction false} DecimalValueIs(digits: string)
    requires AllDigits(digits)
    ensures forall c :: c in digits ==> IsDigit(c)
    ensures DigitsValue(digits) == DecimalValue(digits)
  {
    if digits != "" { DecimalValueIs(digits[..|digits| - 1]); }
  }

  lemma MinusOne()
    ensures ParseInt("-1") == Some(-1)
  {
    DecimalParses(-1);
    assert Decimal(-1) == "-1";
  }

  // ---------------------------------------------------------------- round trip

  /** The text `p` stands at an offset of the buffer. */
  predicate At(buffer: string, offset: nat, p: string) {
    offset + |p| <= |buffer| && buffer[offset..offset + |p|] == p
  }

  lemma AtSplit(buffer: string, offset: nat, p: string, q: string)
    requires At(buffer, offset, p + q)
    ensures At(buffer, offset, p) && At(buffer, offset + |p|, q)
  {
    var s := buffer[offset..offset + |p + q|];
    assert s[..|p|] == p && s[|p|..] == q;
    assert buffer[offset..offset + |p|] == s[..|p|];
    assert buffer[offset + |p|..offset + |p + q|] == s[|p|..];
  }

  lemma BreakFound(buffer: string, from: nat, end: nat)
    requires from <= end && BreakAt(buffer, end) && forall i :: from <= i < end ==> buffer[i] != '\r'
    ensures FindBreak(buffer, from) == Some(end)
  {
  }

  lemma AtIndex(buffer: string, offset: nat, p: string)
    requires At(buffer, offset, p)
    ensures offset + |p| <= |buffer| && forall i :: offset <= i < offset + |p| ==> buffer[i] == p[i - offset]
  {
    assert forall i :: 0 <= i < |p| ==> p[i] == buffer[offset..offset + |p|][i] == buffer[offset + i];
  }

  /** The header line of a printed value is found whole. */
  lemma LineFound(buffer: string, offset: nat, prefix: char, body: string)
    requires At(buffer, offset, Line(prefix, body)) && '\r' !in body
    ensures buffer[offset] == prefix
    ensures FindBreak(buffer, offset + 1) == Some(offset + 1 + |body|)
    ensures buffer[offset + 1..offset + 1 + |body|] == body
  {
    hide FindBreak, At;
    AtIndex(buffer, offset, Line(prefix, body));
    BreakFound(buffer, offset + 1, offset + 1 + |body|);
  }

  lemma BulkParses(content: string, buffer: string, offset: nat)
    requires At(buffer, offset, Print(Bulk(content)))
    ensures Parse(buffer, offset) == Done(Text(content), offset + |Print(Bulk(content))|)
  {
    hide ParseInt, Decimal, FindBreak, ParseItems;
    var header := Line('$', Decimal(|content|));
    DecimalParses(|content|);
    AtSplit(buffer, offset, header + content, CRLF);
    AtSplit(buffer, offset, header, content);
    LineFound(buffer, offset, '$', Decimal(|content|));
  }

  /** What parsing comes to where a value is printed up to its first error. */
  function Verdict(w: Wire, offset: nat): Parsed {
    if FirstError(w).Some? then Failed(FirstError(w).value) else Done(ValueOf(w), offset + |UpToError(w)|)
  }

  function VerdictOf(ws: seq<Wire>, offset: nat): ParsedItems {
    if FirstErrorOf(ws).Some? then NoItems(Failed(FirstErrorOf(ws).value))
    else Items(ValuesOf(ws), offset + |UpToErrorOf(ws)|)
  }

  /** Parsing a printed reply, wherever it stands and whatever follows, fails with its first
      error, or else yields the value and the offset just behind it. */
  lemma {:induction false} ReplyParses(w: Wire, buffer: string, offset: nat)
    requires Printable(w) && At(buffer, offset, UpToError(w))
    ensures Parse(buffer, offset) == Verdict(w, offset)
  {
    hide ParseInt, Decimal, FindBreak, ParseItems, PrintAll, UpToErrorOf, FirstErrorOf, At;
    match w
    case Simple(text) =>
      LineFound(buffer, offset, '+', text);
    case Error(message) =>
      LineFound(buffer, offset, '-', message);
    case Int(number) =>
      DecimalParses(number);
      LineFound(buffer, offset, ':', Decimal(number));
    case Bulk(content) =>
      BulkParses(content, buffer, offset);
    case NullBulk =>
      MinusOne();
      LineFound(buffer, offset, '$', "-1");
    case NullArray =>
      MinusOne();
      LineFound(buffer, offset, '*', "-1");
    case Array(elements) =>
      DecimalParses(|elements|);
      AtSplit(buffer, offset, Line('*', Decimal(|elements|)), UpToErrorOf(elements));
      LineFound(buffer, offset, '*', Decimal(|elements|));
      RepliesParse(elements, buffer, offset + |Line('*', Decimal(|elements|))|);
  }

  lemma {:induction false} RepliesParse(ws: seq<Wire>, buffer: string, offset: nat)
    requires (forall e :: e in ws ==> Printable(e)) && At(buffer, offset, UpToErrorOf(ws))
    ensures ParseItems(buffer, offset, |ws|) == VerdictOf(ws, offset)
  {
    hide Parse, Print, UpToError, FirstError, ValueOf, At;
    if ws != [] {
      assert ws[0] in ws;
      AtSplit(buffer, offset, UpToError(ws[0]), if FirstError(ws[0]).Some? then "" else UpToErrorOf(ws[1..]));
      ReplyParses(ws[0], buffer, offset);
      if FirstError(ws[0]).None? { RepliesParse(ws[1..], buffer, offset + |UpToError(ws[0])|); }
    }
  }

  /** The round trip of a reply without errors. */
  lemma PrintParses(w: Wire, buffer: string, offset: nat)
    requires Printable(w) && FirstError(w).None? && At(buffer, offset, Print(w))
    ensures Parse(buffer, offset) == Done(ValueOf(w), offset + |Print(w)|)
  {
    hide Parse, Print, UpToError, FirstError, ValueOf, At;
    UpToErrorPrefix(w);
    ReplyParses(w, buffer, offset);
  }

  // ---------------------------------------------------------------- cut short

  /** The buffer ends inside `p`. */
  predicate CutShort(buffer: string, offset: nat, p: string) {
    offset <= |buffer| < offset + |p| && buffer[offset..] == p[..|buffer| - offset]
  }

  lemma LineCutShort(buffer: string, offset: nat, prefix: char, body: string)
    requires CutShort(buffer, offset, Line(prefix, body)) && '\r' !in body && prefix in "+-:$*"
    ensures Parse(buffer, offset) == Incomplete
  {
    var p := Line(prefix, body);
    if offset < |buffer| {
      assert forall i :: offset <= i < |buffer| ==> buffer[i] == buffer[offset..][i - offset] == p[i - offset];
      assert buffer[offset] == p[0] == prefix;
      forall i | offset + 1 <= i ensures !BreakAt(buffer, i) {
        if i + 1 < |buffer| {
          assert i - offset < |p| - 2;
          assert buffer[i] == body[i - offset - 1];
        }
      }
    }
  }

  /** The cut is in the first part, or after it. */
  lemma CutSplit(buffer: string, offset: nat, p: string, q: string)
    requires CutShort(buffer, offset, p + q)
    ensures CutShort(buffer, offset, p) || (At(buffer, offset, p) && CutShort(buffer, offset + |p|, q))
  {
    var n := |buffer| - offset;
    if n < |p| {
      assert (p + q)[..n] == p[..n];
    } else {
      assert buffer[offset..][..|p|] == (p + q)[..n][..|p|] == p;
      assert buffer[offset..offset + |p|] == buffer[offset..][..|p|];
      assert buffer[offset + |p|..] == buffer[offset..][|p|..] == (p + q)[..n][|p|..] == q[..n - |p|];
    }
  }

  /** A printed reply that is cut before the end of its first error, or of all of it, is
      incomplete, never an error or a value. */
  lemma {:induction false} CutIsIncomplete(w: Wire, buffer: string, offset: nat)
    requires Printable(w) && CutShort(buffer, offset, UpToError(w))
    ensures Parse(buffer, offset) == Incomplete
  {
    hide ParseInt, Decimal, FindBreak, ParseItems, PrintAll, UpToErrorOf;
    match w
    case Simple(text) =>
      LineCutShort(buffer, offset, '+', text);
    case Error(message) =>
      LineCutShort(buffer, offset, '-', message);
    case Int(number) =>
      DecimalParses(number);
      LineCutShort(buffer, offset, ':', Decimal(number));
    case Bulk(content) =>
      var header := Line('$', Decimal(|content|));
      DecimalParses(|content|);
      assert Print(w) == header + (content + CRLF);
      CutSplit(buffer, offset, header, content + CRLF);
      if CutShort(buffer, offset, header) {
        LineCutShort(buffer, offset, '$', Decimal(|content|));
      } else {
        LineFound(buffer, offset, '$', Decimal(|content|));
      }
    case NullBulk =>
      LineCutShort(buffer, offset, '$', "-1");
    case NullArray =>
      LineCutShort(buffer, offset, '*', "-1");
    case Array(elements) =>
      var header := Line('*', Decimal(|elements|));
      DecimalParses(|elements|);
      CutSplit(buffer, offset, header, UpToErrorOf(elements));
      if CutShort(buffer, offset, header) {
        LineCutShort(buffer, offset, '*', Decimal(|elements|));
      } else {
        LineFound(buffer, offset, '*', Decimal(|elements|));
        CutItems(elements, buffer, offset + |header|);
      }
  }

  lemma {:induction false} CutItems(ws: seq<Wire>, buffer: string, offset: nat)
    requires (forall e :: e in ws ==> Printable(e)) && CutShort(buffer, offset, UpToErrorOf(ws))
    ensures ParseItems(buffer, offset, |ws|) == NoItems(Incomplete)
  {
    hide Parse, Print, ValueOf, UpToError, FirstError;
    var first, rest := UpToError(ws[0]), if FirstError(ws[0]).Some? then "" else UpToErrorOf(ws[1..]);
    assert ws[0] in ws;
    CutSplit(buffer, offset, first, rest);
    if CutShort(buffer, offset, first) {
      CutIsIncomplete(ws[0], buffer, offset);
    } else {
      ReplyParses(ws[0], buffer, offset);
      CutItems(ws[1..], buffer, offset + |first|);
    }
  }

  // ---------------------------------------------------------------- replies no server prints

  /** What comes of a line with another prefix, or with a number that is none: an unknown prefix
      fails with its character at once, even before its line is complete; an integer without
      digits is no number; an array without a length, or with a negative one, is empty. */
  lemma OddReplies(buffer: string, offset: nat)
    requires offset < |buffer|
    ensures var prefix := buffer[offset];
      prefix != '+' && prefix != '-' && prefix != ':' && prefix != '$' && prefix != '*' ==>
        Parse(buffer, offset) == Failed("Unsupported RESP prefix: " + [prefix])
    ensures var end := FindBreak(buffer, offset + 1);
      end.Some? ==>
        var n := ParseInt(buffer[offset + 1..end.value]);
        && (buffer[offset] == ':' && n.None? ==> Parse(buffer, offset) == Done(NotANumber, end.value + 2))
        && (buffer[offset] == '*' && (n.None? || n.value == 0 || n.value < -1) ==>
              Parse(buffer, offset) == Done(List([]), end.value + 2))
        && (buffer[offset] == '$' && (n.None? || n.value < -1) ==> Parse(buffer, offset) == Outside)
  {
    hide ParseInt, FindBreak;
  }

  // ---------------------------------------------------------------- commands

  function Bulks(parts: seq<string>): (r: seq<Wire>)
    ensures |r| == |parts| && forall i :: 0 <= i < |r| ==> r[i] == Bulk(parts[i])
  {
    seq(|parts|, i requires 0 <= i < |parts| => Bulk(parts[i]))
  }

  lemma {:induction false} PrintAllAppend(ws: seq<Wire>, w: Wire)
    ensures PrintAll(ws + [w]) == PrintAll(ws) + Print(w)
  {
    hide Print;
    if ws == [] {
      assert [w][1..] == [] && PrintAll([]) == "";
      assert Print(w) + "" == Print(w);
    } else {
      PrintAllAppend(ws[1..], w);
      assert (ws + [w])[1..] == ws[1..] + [w];
    }
  }

  /** encodeCommand: the client's command is what the protocol prints for an array of
      bulk strings. */
  method EncodeCommand(parts: seq<string>) returns (payload: string)
    ensures payload == Print(Array(Bulks(parts)))
  {
    payload := "*" + Decimal(|parts|) + CRLF;
    var i := 0;
    while i < |parts|
      invariant 0 <= i <= |parts|
      invariant payload == Line('*', Decimal(|parts|)) + PrintAll(Bulks(parts)[..i])
    {
      var part := parts[i];
      PrintAllAppend(Bulks(parts)[..i], Bulk(part));
      assert Bulks(parts)[..i + 1] == Bulks(parts)[..i] + [Bulk(part)];
      payload := payload + "$" + Decimal(|part|) + CRLF + part + CRLF;
      i := i + 1;
    }
    assert Bulks(parts)[..|parts|] == Bulks(parts);
  }

  function Texts(parts: seq<string>): seq<Response> {
    seq(|parts|, i requires 0 <= i < |parts| => Text(parts[i]))
  }

  lemma {:induction false} ValuesOfBulks(parts: seq<string>)
    ensures ValuesOf(Bulks(parts)) == Texts(parts)
  {
    if parts != [] {
      ValuesOfBulks(parts[1..]);
      assert Bulks(parts)[1..] == Bulks(parts[1..]);
    }
  }

  lemma {:induction false} BulksHaveNoError(ws: seq<Wire>)
    requires forall i :: 0 <= i < |ws| ==> ws[i].Bulk?
    ensures FirstErrorOf(ws).None?
  {
    if ws != [] { BulksHaveNoError(ws[1..]); }
  }

  /** Any parts, also empty ones and ones that hold line breaks, come through. */
  lemma CommandRoundTrip(parts: seq<string>, rest: string)
    ensures var payload := Print(Array(Bulks(parts)));
      Parse(payload + rest, 0) == Done(List(Texts(parts)), |payload|)
  {
    var w := Array(Bulks(parts));
    assert (Print(w) + rest)[0..|Print(w)|] == Print(w);
    BulksHaveNoError(Bulks(parts));
    PrintParses(w, Print(w) + rest, 0);
    ValuesOfBulks(parts);
  }

  /** No number in it is one that could not be parsed. */
  predicate Proper(r: Response) {
    match r
    case NotANumber => false
    case List(items) => forall item :: item in items ==> Proper(item)
    case _ => true
  }

  /** What a server prints for a value. */
  function WireOf(r: Response): Wire {
    match r
    case Null => NullBulk
    case NotANumber => NullBulk
    case Text(text) => Bulk(text)
    case Number(number) => Int(number)
    case List(items) => Array(WiresOf(items))
  }

  function WiresOf(items: seq<Response>): seq<Wire> {
    if items == [] then [] else [WireOf(items[0])] + WiresOf(items[1..])
  }

  lemma {:induction false} WireIsFaithful(r: Response)
    requires Proper(r)
    ensures ValueOf(WireOf(r)) == r && Printable(WireOf(r)) && FirstError(WireOf(r)).None?
  {
    if r.List? { WiresAreFaithful(r.items); }
  }

  lemma {:induction false} WiresAreFaithful(items: seq<Response>)
    requires forall item :: item in items ==> Proper(item)
    ensures var ws := WiresOf(items);
      ValuesOf(ws) == items && FirstErrorOf(ws).None? && forall w :: w in ws ==> Printable(w)
  {
    hide Printable;
    if items != [] {
      WireIsFaithful(items[0]);
      WiresAreFaithful(items[1..]);
    }
  }

  /** Every value, of any nesting, is read back from what is printed for it. */
  lemma ValueParses(r: Response, rest: string)
    requires Proper(r)
    ensures var text := Print(WireOf(r)); Parse(text + rest, 0) == Done(r, |text|)
  {
    hide Print, WireOf, Printable;
    var w := WireOf(r);
    WireIsFaithful(r);
    assert (Print(w) + rest)[0..|Print(w)|] == Print(w);
    PrintParses(w, Print(w) + rest, 0);
  }
}
