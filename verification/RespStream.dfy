/** The data loop of one Redis request: text arrives in chunks, replies are counted off,
    and the request is settled by the last one it waits for, or by the first error. */
module RespStream {
  import opened Wrappers
  import opened Resp
  import opened RespPrinting

  datatype Settlement = Waiting | Resolved(value: Response) | Rejected(message: string) | Unmodelled

  /** What the text settles when `k` more replies are due from an offset on. */
  function Drain(text: string, offset: nat, k: nat, last: Response): Settlement
    decreases k
  {
    if k == 0 then Resolved(last)
    else
      match Parse(text, offset)
      case Done(value, next) => Drain(text, next, k - 1, value)
      case Incomplete => Waiting
      case Failed(message) => Rejected(message)
      case Outside => Unmodelled
  }

  lemma {:induction false} DrainStable(text: string, offset: nat, k: nat, last: Response, more: string)
    requires Drain(text, offset, k, last) != Waiting
    ensures Drain(text + more, offset, k, last) == Drain(text, offset, k, last)
    decreases k
  {
    hide Parse;
    if k > 0 {
      ParseStable(text, offset, more);
      match Parse(text, offset)
      case Done(value, next) => DrainStable(text, next, k - 1, value, more);
      case _ =>
    }
  }

  lemma DrainUnfold(text: string, offset: nat, k: nat, last: Response)
    ensures k == 0 ==> Drain(text, offset, k, last) == Resolved(last)
    ensures k > 0 && Parse(text, offset).Incomplete? ==> Drain(text, offset, k, last) == Waiting
    ensures k > 0 && Parse(text, offset).Failed? ==>
      Drain(text, offset, k, last) == Rejected(Parse(text, offset).message)
    ensures k > 0 && Parse(text, offset).Outside? ==> Drain(text, offset, k, last) == Unmodelled
  {
  }

  /** Going on from an offset gives what starting over would, whatever else arrives. */
  ghost predicate Resumes(text: string, expected: nat, offset: nat, due: nat, last: Response) {
    forall more :: Drain(text + more, 0, expected, Null) == Drain(text + more, offset, due, last)
  }

  lemma ResumesLater(text: string, chunk: string, expected: nat, offset: nat, due: nat, last: Response)
    requires Resumes(text, expected, offset, due, last)
    ensures Resumes(text + chunk, expected, offset, due, last)
  {
    forall more ensures Drain(text + chunk + more, 0, expected, Null) == Drain(text + chunk + more, offset, due, last) {
      assert text + (chunk + more) == text + chunk + more;
    }
  }

  lemma ResumesNext(text: string, expected: nat, offset: nat, due: nat, last: Response)
    requires Resumes(text, expected, offset, due, last) && 0 < due && Parse(text, offset).Done?
    ensures Resumes(text, expected, Parse(text, offset).next, due - 1, Parse(text, offset).value)
  {
    forall more ensures Parse(text + more, offset) == Parse(text, offset) { ParseStable(text, offset, more); }
  }

  lemma ResumesNow(text: string, expected: nat, offset: nat, due: nat, last: Response)
    requires Resumes(text, expected, offset, due, last)
    ensures Drain(text, 0, expected, Null) == Drain(text, offset, due, last)
  {
    assert text + "" == text;
  }

  class Request {
    const expected: nat
    var accumulated: string
    var offset: nat
    var parsedResponses: nat
    var lastValue: Response
    var settlement: Settlement
    ghost var received: string

    constructor (expected: nat)
      requires 0 < expected
      ensures Valid() && this.expected == expected && received == ""
    {
      this.expected := expected;
      accumulated, offset, parsedResponses := "", 0, 0;
      lastValue, settlement, received := Null, Waiting, "";
    }

    /** Once settled, the listeners are gone and what arrives is not looked at. */
    ghost predicate Valid() reads this {
      && 0 < expected && parsedResponses <= expected
      && settlement == Drain(received, 0, expected, Null)
      && (settlement.Waiting? ==>
            && received == accumulated
            && Resumes(accumulated, expected, offset, expected - parsedResponses, lastValue))
    }

    method OnData(chunk: string)
      requires Valid()
      modifies this
      ensures Valid() && received == old(received) + chunk
    {
      hide Resumes, Parse, Drain;
      if settlement != Waiting {
        DrainStable(received, 0, expected, Null, chunk);
        received := received + chunk;
        return;
      }
      ResumesLater(accumulated, chunk, expected, offset, expected - parsedResponses, lastValue);
      accumulated := accumulated + chunk;
      received := received + chunk;
      while parsedResponses < expected
        invariant parsedResponses <= expected && settlement.Waiting?
        invariant received == accumulated == old(received) + chunk
        invariant Resumes(accumulated, expected, offset, expected - parsedResponses, lastValue)
      {
        ResumesNow(accumulated, expected, offset, expected - parsedResponses, lastValue);
        DrainUnfold(accumulated, offset, expected - parsedResponses, lastValue);
        var parsed := ParseRespValue(accumulated, offset);
        match parsed
        case Incomplete => return;
        case Failed(message) => settlement := Rejected(message); return;
        case Outside => settlement := Unmodelled; return;
        case Done(value, next) =>
          ResumesNext(accumulated, expected, offset, expected - parsedResponses, lastValue);
          offset, parsedResponses, lastValue := next, parsedResponses + 1, value;
      }
      ResumesNow(accumulated, expected, offset, 0, lastValue);
      DrainUnfold(accumulated, offset, 0, lastValue);
      settlement := Resolved(lastValue);
    }
  }

  function Joined(chunks: seq<string>): string {
    if chunks == [] then "" else Joined(chunks[..|chunks| - 1]) + chunks[|chunks| - 1]
  }

  /** Chunk independence: what a request comes to depends on the text alone, not on the
      way it was cut up. */
  method Receive(expected: nat, chunks: seq<string>) returns (settlement: Settlement)
    requires 0 < expected
    ensures settlement == Drain(Joined(chunks), 0, expected, Null)
  {
    var request := new Request(expected);
    var i := 0;
    while i < |chunks|
      invariant 0 <= i <= |chunks| && request.Valid() && fresh(request)
      invariant request.expected == expected && request.received == Joined(chunks[..i])
    {
      request.OnData(chunks[i]);
      assert chunks[..i + 1][..i] == chunks[..i];
      i := i + 1;
    }
    assert chunks[..|chunks|] == chunks;
    return request.settlement;
  }

  // ---------------------------------------------------------------- what a server's text settles

  /** The text of whole replies settles a request with the value of the last one. */
  lemma {:induction false} WholeRepliesResolve(ws: seq<Wire>, text: string, offset: nat, last: Response)
    requires (forall w :: w in ws ==> Printable(w)) && FirstErrorOf(ws).None? && At(text, offset, PrintAll(ws))
    ensures Drain(text, offset, |ws|, last) == Resolved(if ws == [] then last else ValueOf(ws[|ws| - 1]))
    decreases |ws|
  {
    hide Parse, Print, ValueOf, At, FirstError;
    if ws != [] {
      assert ws[0] in ws;
      AtSplit(text, offset, Print(ws[0]), PrintAll(ws[1..]));
      PrintParses(ws[0], text, offset);
      WholeRepliesResolve(ws[1..], text, offset + |Print(ws[0])|, ValueOf(ws[0]));
    }
  }

  /** Less than that, or than what is printed up to the first error, leaves it waiting. */
  lemma {:induction false} CutRepliesWait(ws: seq<Wire>, text: string, offset: nat, last: Response)
    requires (forall w :: w in ws ==> Printable(w)) && CutShort(text, offset, UpToErrorOf(ws))
    ensures Drain(text, offset, |ws|, last) == Waiting
    decreases |ws|
  {
    hide Parse, Print, ValueOf, UpToError, FirstError;
    var first, rest := UpToError(ws[0]), if FirstError(ws[0]).Some? then "" else UpToErrorOf(ws[1..]);
    assert ws[0] in ws;
    CutSplit(text, offset, first, rest);
    if CutShort(text, offset, first) {
      CutIsIncomplete(ws[0], text, offset);
    } else {
      ReplyParses(ws[0], text, offset);
      CutRepliesWait(ws[1..], text, offset + |first|, ValueOf(ws[0]));
    }
  }

  /** Where the first reply is printed, and the others after it. */
  lemma FirstReplyAt(ws: seq<Wire>, text: string, offset: nat)
    requires ws != [] && At(text, offset, UpToErrorOf(ws))
    ensures At(text, offset, UpToError(ws[0]))
    ensures FirstError(ws[0]).None? ==> At(text, offset + |UpToError(ws[0])|, UpToErrorOf(ws[1..]))
  {
    hide UpToError, FirstError, At;
    AtSplit(text, offset, UpToError(ws[0]), if FirstError(ws[0]).Some? then "" else UpToErrorOf(ws[1..]));
  }

  /** The first error among the replies due, also one nested in an array, rejects the
      request, whatever follows it. */
  lemma {:induction false} ErrorReplyRejects(ws: seq<Wire>, text: string, offset: nat, last: Response)
    requires (forall w :: w in ws ==> Printable(w)) && FirstErrorOf(ws).Some? && At(text, offset, UpToErrorOf(ws))
    ensures Drain(text, offset, |ws|, last) == Rejected(FirstErrorOf(ws).value)
    decreases |ws|
  {
    hide Parse, Print, PrintAll, ValueOf, At, UpToError, UpToErrorOf, FirstError;
    assert ws[0] in ws;
    FirstReplyAt(ws, text, offset);
    ReplyParses(ws[0], text, offset);
    if FirstError(ws[0]).None? { ErrorReplyRejects(ws[1..], text, offset + |UpToError(ws[0])|, ValueOf(ws[0])); }
  }

  /** A request that waits for k replies is settled exactly when a server's text for them has
      come through the first error among them, or else through the last character: rejected
      with that error, or resolved to the k-th reply. */
  lemma SettledExactlyAtTheEnd(ws: seq<Wire>, n: nat)
    requires ws != [] && (forall w :: w in ws ==> Printable(w)) && n <= |PrintAll(ws)|
    ensures Drain(PrintAll(ws)[..n], 0, |ws|, Null) ==
            if n < |UpToErrorOf(ws)| then Waiting
            else if FirstErrorOf(ws).Some? then Rejected(FirstErrorOf(ws).value)
            else Resolved(ValueOf(ws[|ws| - 1]))
  {
    hide Drain, UpToErrorOf, FirstErrorOf, PrintAll, ValueOf;
    var text, whole := PrintAll(ws)[..n], UpToErrorOf(ws);
    UpToErrorOfPrefix(ws);
    assert text[0..] == text;
    if n < |whole| {
      assert text == whole[..n];
      CutRepliesWait(ws, text, 0, Null);
    } else if FirstErrorOf(ws).Some? {
      assert text[0..|whole|] == whole;
      ErrorReplyRejects(ws, text, 0, Null);
    } else {
      assert text[0..n] == PrintAll(ws);
      WholeRepliesResolve(ws, text, 0, Null);
    }
  }
}
