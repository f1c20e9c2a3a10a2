/**
 * One pass of the converter's prompt cycle: the END sentinel at the amount prompt,
 * then three retry loops that read lines until one is accepted (an amount of at
 * least 0.01, a base currency, a target currency other than the base).
 *
 * Input is a sequence of lines that are already trimmed and upper-cased; a
 * position into it plays the role of the console. Running out of lines is what
 * `readln()` does at end of input: it ends the session.
 */
module Interaction {
  import opened Wrappers
  import opened Validation

  /** What the user gave in one completed cycle: the accepted amount line and the two codes. */
  datatype Request = Request(amount: string, base: string, target: string)

  /** The three retry loops and what each of them accepts. */
  datatype Prompt = AmountPrompt | BasePrompt | TargetPrompt(base: string)

  predicate Accepts(codes: seq<string>, prompt: Prompt, line: string) {
    match prompt
    case AmountPrompt => AmountAccepted(line)
    case BasePrompt => ValidateCurrency(line, codes)
    case TargetPrompt(base) => ValidateCurrency(line, codes) && line != base
  }

  /**
   * The position of the first line at or after `from` that `prompt` accepts, or None
   * when the input runs out first. Every line skipped on the way is one the prompt
   * rejected (and re-prompted after).
   */
  function FirstAccepted(codes: seq<string>, prompt: Prompt, lines: seq<string>, from: nat): (r: Option<nat>)
    decreases |lines| - from
    ensures r.Some? ==> from <= r.value < |lines|
  {
    if from >= |lines| then None
    else if Accepts(codes, prompt, lines[from]) then Some(from)
    else FirstAccepted(codes, prompt, lines, from + 1)
  }

  /** The line found is accepted, and it is the first: every line before it was rejected. */
  lemma {:induction false} FirstAcceptedSound(codes: seq<string>, prompt: Prompt, lines: seq<string>, from: nat)
    ensures var r := FirstAccepted(codes, prompt, lines, from);
      && (r.Some? ==> from <= r.value < |lines| && Accepts(codes, prompt, lines[r.value]))
      && (forall j :: from <= j < (if r.Some? then r.value else |lines|) ==> !Accepts(codes, prompt, lines[j]))
    decreases |lines| - from
  {
    if from < |lines| && !Accepts(codes, prompt, lines[from]) {
      FirstAcceptedSound(codes, prompt, lines, from + 1);
    }
  }

  /** The line a retry loop stops on, and the rejected lines before it. */
  lemma FirstAcceptedAt(codes: seq<string>, prompt: Prompt, lines: seq<string>, from: nat, r: nat)
    requires FirstAccepted(codes, prompt, lines, from) == Some(r)
    ensures from <= r < |lines| && Accepts(codes, prompt, lines[r])
    ensures forall j :: from <= j < r ==> !Accepts(codes, prompt, lines[j])
  {
    FirstAcceptedSound(codes, prompt, lines, from);
  }

  /** How one cycle that starts reading at some position ends. */
  datatype Cycle =
    | Stop                 // the first line was END
    | Exhausted            // the input ran out before a target currency was accepted
    | Accepted(request: Request, amountAt: nat, baseAt: nat, targetAt: nat)

  /** One cycle of the prompt loop, starting at line `pos`. */
  function CycleAt(codes: seq<string>, lines: seq<string>, pos: nat): Cycle {
    if pos >= |lines| then Exhausted
    else if lines[pos] == "END" then Stop
    else
      match FirstAccepted(codes, AmountPrompt, lines, pos)
      case None => Exhausted
      case Some(a) =>
        match FirstAccepted(codes, BasePrompt, lines, a + 1)
        case None => Exhausted
        case Some(b) =>
          match FirstAccepted(codes, TargetPrompt(lines[b]), lines, b + 1)
          case None => Exhausted
          case Some(t) => Accepted(Request(lines[a], lines[b], lines[t]), a, b, t)
  }

  /**
   * What a cycle guarantees. END stops the session only as the first line of a cycle.
   * An accepted cycle read its amount, base and target in that order; the amount is
   * pattern-valid and worth at least one cent, the target is a known code other than
   * the base, and every line between them was rejected by the prompt it answered.
   */
  lemma CycleSound(codes: seq<string>, lines: seq<string>, pos: nat)
    ensures CycleAt(codes, lines, pos) == Stop <==> pos < |lines| && lines[pos] == "END"
    ensures CycleAt(codes, lines, pos).Accepted? ==>
      var c := CycleAt(codes, lines, pos);
      var (a, b, t) := (c.amountAt, c.baseAt, c.targetAt);
      && lines[pos] != "END"
      && pos <= a < b < t < |lines|
      && AmountAccepted(lines[a]) && c.request.amount == lines[a] && AmountCents(lines[a]) >= 1
      && (forall j :: pos <= j < a ==> !AmountAccepted(lines[j]))
      && ValidateCurrency(lines[b], codes) && c.request.base == lines[b]
      && (forall j :: a < j < b ==> !ValidateCurrency(lines[j], codes))
      && ValidateCurrency(lines[t], codes) && c.request.target == lines[t] && lines[t] != lines[b]
      && (forall j :: b < j < t ==> !ValidateCurrency(lines[j], codes) || lines[j] == lines[b])
  {
    var c := CycleAt(codes, lines, pos);
    if c.Accepted? {
      var (a, b, t) := (c.amountAt, c.baseAt, c.targetAt);
      FirstAcceptedAt(codes, AmountPrompt, lines, pos, a);
      FirstAcceptedAt(codes, BasePrompt, lines, a + 1, b);
      FirstAcceptedAt(codes, TargetPrompt(lines[b]), lines, b + 1, t);
      forall j | pos <= j < a ensures !AmountAccepted(lines[j]) {
        assert !Accepts(codes, AmountPrompt, lines[j]);
      }
      forall j | a < j < b ensures !ValidateCurrency(lines[j], codes) {
        assert !Accepts(codes, BasePrompt, lines[j]);
      }
      forall j | b < j < t ensures !ValidateCurrency(lines[j], codes) || lines[j] == lines[b] {
        assert !Accepts(codes, TargetPrompt(lines[b]), lines[j]);
      }
    }
  }

  /**
   * The converse of `CycleSound`: a cycle that does not start with END and whose lines
   * hold an accepted amount, then a known code, then a known code other than that one,
   * is accepted. So a cycle ends `Exhausted` only when the input runs out.
   */
  lemma CycleComplete(codes: seq<string>, lines: seq<string>, pos: nat, a: nat, b: nat, t: nat)
    requires pos < |lines| && lines[pos] != "END"
    requires pos <= a < b < t < |lines|
    requires AmountAccepted(lines[a])
    requires ValidateCurrency(lines[b], codes) && ValidateCurrency(lines[t], codes) && lines[t] != lines[b]
    ensures CycleAt(codes, lines, pos).Accepted?
  {
    FirstAcceptedSound(codes, AmountPrompt, lines, pos);
    assert Accepts(codes, AmountPrompt, lines[a]);
    var a' := FirstAccepted(codes, AmountPrompt, lines, pos).value;
    FirstAcceptedSound(codes, BasePrompt, lines, a' + 1);
    assert Accepts(codes, BasePrompt, lines[b]);
    var b' := FirstAccepted(codes, BasePrompt, lines, a' + 1).value;
    FirstAcceptedSound(codes, TargetPrompt(lines[b']), lines, b' + 1);
    if lines[t] != lines[b'] {
      assert Accepts(codes, TargetPrompt(lines[b']), lines[t]);
    } else {
      assert Accepts(codes, TargetPrompt(lines[b']), lines[b]);
    }
  }

  /** A cycle that is not stopped by END and does not run out of input reads past its start. */
  lemma CycleProgress(codes: seq<string>, lines: seq<string>, pos: nat)
    requires CycleAt(codes, lines, pos).Accepted?
    ensures pos < CycleAt(codes, lines, pos).targetAt + 1 <= |lines|
  {
    CycleSound(codes, lines, pos);
  }

  /**
   * One retry loop: read lines from `from` on, re-prompting after each rejected one,
   * until `prompt` accepts a line; None when the input runs out.
   */
  method ReadUntilAccepted(codes: seq<string>, prompt: Prompt, lines: seq<string>, from: nat)
    returns (at: Option<nat>)
    ensures at == FirstAccepted(codes, prompt, lines, from)
  {
    var i := from;
    while i < |lines| && !Accepts(codes, prompt, lines[i])
      invariant from <= i
      invariant FirstAccepted(codes, prompt, lines, i) == FirstAccepted(codes, prompt, lines, from)
      decreases |lines| - i
    {
      i := i + 1;
    }
    at := if i < |lines| then Some(i) else None;
  }

  /** One pass of the body of the outer prompt loop, reading from line `pos`. */
  method NextCycle(codes: seq<string>, lines: seq<string>, pos: nat) returns (c: Cycle)
    ensures c == CycleAt(codes, lines, pos)
  {
    if pos >= |lines| {
      return Exhausted;
    }
    if lines[pos] == "END" {
      return Stop;
    }
    var amountAt := ReadUntilAccepted(codes, AmountPrompt, lines, pos);
    if amountAt.None? {
      return Exhausted;
    }
    var amount := lines[amountAt.value];
    var baseAt := ReadUntilAccepted(codes, BasePrompt, lines, amountAt.value + 1);
    if baseAt.None? {
      return Exhausted;
    }
    var base := lines[baseAt.value];
    var targetAt := ReadUntilAccepted(codes, TargetPrompt(base), lines, baseAt.value + 1);
    if targetAt.None? {
      return Exhausted;
    }
    c := Accepted(Request(amount, base, lines[targetAt.value]), amountAt.value, baseAt.value, targetAt.value);
  }

  /** Everything a whole session asks for, cycle after cycle, and whether END ended it. */
  datatype Session = Session(requests: seq<Request>, endedByEnd: bool)

  function SessionFrom(codes: seq<string>, lines: seq<string>, pos: nat): Session
    decreases |lines| - pos
  {
    match CycleAt(codes, lines, pos)
    case Stop => Session([], true)
    case Exhausted => Session([], false)
    case Accepted(req, _, _, t) =>
      CycleProgress(codes, lines, pos);
      var rest := SessionFrom(codes, lines, t + 1);
      Session([req] + rest.requests, rest.endedByEnd)
  }

  /**
   * A session of one conversion: an accepted amount, a known base, a known target other
   * than the base, then END. It asks for exactly that conversion and ends by END.
   */
  lemma OneConversionSession(codes: seq<string>, amount: string, base: string, target: string)
    requires amount != "END" && AmountAccepted(amount)
    requires ValidateCurrency(base, codes) && ValidateCurrency(target, codes) && base != target
    ensures SessionFrom(codes, [amount, base, target, "END"], 0) == Session([Request(amount, base, target)], true)
  {
    var lines := [amount, base, target, "END"];
    assert FirstAccepted(codes, AmountPrompt, lines, 0) == Some(0);
    assert FirstAccepted(codes, BasePrompt, lines, 1) == Some(1);
    assert FirstAccepted(codes, TargetPrompt(base), lines, 2) == Some(2);
    assert CycleAt(codes, lines, 0) == Accepted(Request(amount, base, target), 0, 1, 2);
    assert CycleAt(codes, lines, 3) == Stop;
  }

  /** The session `100.00`, `USD`, `EUR`, `END` asks for one conversion, 100.00 from USD to EUR. */
  lemma UsdToEurSession()
    ensures SessionFrom(["USD", "EUR"], ["100.00", "USD", "EUR", "END"], 0) ==
            Session([Request("100.00", "USD", "EUR")], true)
  {
    TwoDecimalsAmount("100", '0', '0');
    assert "100" + ['.', '0', '0'] == "100.00";
    CurrencyIsMembership("USD", ["USD", "EUR"]);
    CurrencyIsMembership("EUR", ["USD", "EUR"]);
    OneConversionSession(["USD", "EUR"], "100.00", "USD", "EUR");
  }

  /** A request the loop passes on to a conversion. */
  predicate WellFormedRequest(codes: seq<string>, r: Request) {
    && AmountAccepted(r.amount)
    && ValidateCurrency(r.base, codes)
    && ValidateCurrency(r.target, codes)
    && r.base != r.target
  }

  /**
   * Every conversion a session asks for has an amount of at least 0.01 and two known
   * currencies that differ: a conversion with target == base is never requested.
   */
  lemma {:induction false} SessionRequestsWellFormed(codes: seq<string>, lines: seq<string>, pos: nat)
    ensures forall r :: r in SessionFrom(codes, lines, pos).requests ==> WellFormedRequest(codes, r)
    decreases |lines| - pos
  {
    var c := CycleAt(codes, lines, pos);
    if c.Accepted? {
      CycleSound(codes, lines, pos);
      assert WellFormedRequest(codes, c.request);
      var rest := SessionFrom(codes, lines, c.targetAt + 1);
      SessionRequestsWellFormed(codes, lines, c.targetAt + 1);
      assert SessionFrom(codes, lines, pos).requests == [c.request] + rest.requests;
    }
  }

  /** How a session unfolds by one cycle that ends without a request. */
  lemma SessionStep(codes: seq<string>, lines: seq<string>, pos: nat)
    ensures CycleAt(codes, lines, pos) == Stop ==> SessionFrom(codes, lines, pos) == Session([], true)
    ensures CycleAt(codes, lines, pos) == Exhausted ==> SessionFrom(codes, lines, pos) == Session([], false)
  {
  }

  /** How a session unfolds by one accepted cycle: its request, then the session after it. */
  lemma SessionUnfold(codes: seq<string>, lines: seq<string>, pos: nat, cycle: Cycle)
    requires cycle == CycleAt(codes, lines, pos) && cycle.Accepted?
    ensures pos < cycle.targetAt + 1 <= |lines|
    ensures SessionFrom(codes, lines, pos).requests == [cycle.request] + SessionFrom(codes, lines, cycle.targetAt + 1).requests
    ensures SessionFrom(codes, lines, pos).endedByEnd == SessionFrom(codes, lines, cycle.targetAt + 1).endedByEnd
  {
    CycleProgress(codes, lines, pos);
  }

  /** The request of an accepted cycle is one the converter can act on. */
  lemma AcceptedWellFormed(codes: seq<string>, lines: seq<string>, pos: nat, cycle: Cycle)
    requires cycle == CycleAt(codes, lines, pos) && cycle.Accepted?
    ensures WellFormedRequest(codes, cycle.request)
  {
    CycleSound(codes, lines, pos);
  }

  /**
   * A session seen as the requests of the cycles already run followed by the session
   * from the current line: running one more accepted cycle moves its request across.
   */
  lemma SessionAdvance(codes: seq<string>, lines: seq<string>, pos: nat, cycle: Cycle, done: seq<Request>, whole: Session)
    requires cycle == CycleAt(codes, lines, pos) && cycle.Accepted?
    requires whole.requests == done + SessionFrom(codes, lines, pos).requests
    requires whole.endedByEnd == SessionFrom(codes, lines, pos).endedByEnd
    ensures pos < cycle.targetAt + 1 <= |lines|
    ensures WellFormedRequest(codes, cycle.request)
    ensures whole.requests == (done + [cycle.request]) + SessionFrom(codes, lines, cycle.targetAt + 1).requests
    ensures whole.endedByEnd == SessionFrom(codes, lines, cycle.targetAt + 1).endedByEnd
  {
    SessionUnfold(codes, lines, pos, cycle);
    AcceptedWellFormed(codes, lines, pos, cycle);
    var rest := SessionFrom(codes, lines, cycle.targetAt + 1).requests;
    assert done + ([cycle.request] + rest) == (done + [cycle.request]) + rest;
  }

  /**
   * The outer prompt loop of `main` as far as reading goes: run cycles from the first
   * line on until one is stopped by END or runs out of input, collecting the request of
   * every accepted cycle.
   */
  method ReadSession(codes: seq<string>, lines: seq<string>) returns (requests: seq<Request>, endedByEnd: bool)
    ensures Session(requests, endedByEnd) == SessionFrom(codes, lines, 0)
  {
    ghost var whole := SessionFrom(codes, lines, 0);
    var pos := 0;
    requests := [];
    while true
      invariant pos <= |lines|
      invariant whole.requests == requests + SessionFrom(codes, lines, pos).requests
      invariant whole.endedByEnd == SessionFrom(codes, lines, pos).endedByEnd
      decreases |lines| - pos
    {
      var c := NextCycle(codes, lines, pos);
      SessionStep(codes, lines, pos);
      if !c.Accepted? {
        assert requests + [] == requests;
        endedByEnd := c == Stop;
        return;
      }
      SessionAdvance(codes, lines, pos, c, requests, whole);
      requests := requests + [c.request];
      pos := c.targetAt + 1;
    }
  }
}
