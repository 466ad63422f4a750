/**
 * Payment confirmation (bot/utils/check_payment.py): the stored crypto
 * amount is turned into integer base units and looked for among the
 * incoming transfers of the bot's wallet. The TonAPI event list and the
 * Solana RPC answers are inputs; the sleeps between calls are left out.
 */
module CheckPayment {
  import opened Options
  import opened Strings
  import opened Decimals
  import opened Balance

  /** What a check reports: a truthy result, a falsy one, or an exception reaching the caller. */
  /** What a check answers; `Hangs` is a call that never returns. */
  datatype Verdict = Paid | NotPaid | Raised | Hangs

  // ---------------------------------------------------------------------
  // TON

  /** TON has 9 decimals: one TON is 10^9 nanotons. */
  const TonDecimals: nat := 9

  /** The first action of an event: a TON transfer of some nanotons, or anything else. */
  datatype Action = TonTransfer(amount: int) | OtherAction

  datatype Event = Event(actions: seq<Action>)

  /** The event's first action transfers exactly `nano` nanotons. */
  predicate TonMatches(e: Event, nano: nat)
  {
    |e.actions| > 0 && e.actions[0] == TonTransfer(nano)
  }

  /** The scan looks at the event and moves on: it has a first action, and that is not the payment. */
  predicate TonPasses(e: Event, nano: nat)
  {
    |e.actions| > 0 && !TonMatches(e, nano)
  }

  predicate AllPass(events: seq<Event>, n: nat, nano: nat)
    requires n <= |events|
  {
    forall j :: 0 <= j < n ==> TonPasses(events[j], nano)
  }

  /**
   * `int((Decimal(amount) * Decimal(10 ** 9)).to_integral_value())` for an
   * amount spelt as ASCII digits with at most one '.' among them; None for
   * any other spelling (see `ParseDecimal`).
   */
  function Nanotons(amount: string): (r: Option<nat>)
    ensures r.Some? <==> ParseDecimal(amount).Some?
    ensures var d := ParseDecimal(amount);
      d.Some? && d.value.exp <= TonDecimals ==> r == Some(d.value.coef * Pow10(TonDecimals - d.value.exp))
  {
    match ParseDecimal(amount)
    case None => None
    case Some(d) => Some(ToBaseUnits(d, TonDecimals))
  }

  /**
   * `check_payment_ton(amount)` over the fetched `events`: True at the first
   * event whose first action is a transfer of exactly the amount, events
   * whose first action is something else skipped, None when nothing matches.
   * An event without actions makes `actions[0]` raise.
   */
  method CheckPaymentTon(amount: string, events: seq<Event>) returns (v: Verdict)
    ensures Nanotons(amount).None? ==> v == Raised
    ensures Nanotons(amount).Some? ==>
      var nano := Nanotons(amount).value;
      && (v == Paid <==> exists i :: 0 <= i < |events| && TonMatches(events[i], nano) && AllPass(events, i, nano))
      && (v == NotPaid <==> AllPass(events, |events|, nano))
      && (v == Raised <==> exists i :: 0 <= i < |events| && events[i].actions == [] && AllPass(events, i, nano))
  {
    var parsed := Nanotons(amount);
    if parsed.None? {
      return Raised;
    }
    var nano := parsed.value;
    for i := 0 to |events|
      invariant AllPass(events, i, nano)
    {
      var e := events[i];
      if |e.actions| == 0 {
        OnlyFirstStop(events, i, nano);
        return Raised;
      }
      if e.actions[0].OtherAction? {
        continue;
      }
      if e.actions[0].amount == nano {
        OnlyFirstStop(events, i, nano);
        return Paid;
      }
    }
    NoStop(events, nano);
    v := NotPaid;
  }

  /** When the scan stops at event `i`, no other event can be where it stops. */
  lemma OnlyFirstStop(events: seq<Event>, i: nat, nano: nat)
    requires i < |events| && AllPass(events, i, nano) && !TonPasses(events[i], nano)
    ensures !AllPass(events, |events|, nano)
    ensures forall k :: 0 <= k < |events| && k != i && !TonPasses(events[k], nano) ==> !AllPass(events, k, nano)
  {
    forall k | 0 <= k < |events| && k != i && !TonPasses(events[k], nano)
      ensures !AllPass(events, k, nano)
    {
      if k > i {
        assert !TonPasses(events[i], nano);
      }
    }
  }

  /** When every event passes, the scan never stops. */
  lemma NoStop(events: seq<Event>, nano: nat)
    requires AllPass(events, |events|, nano)
    ensures forall i :: 0 <= i < |events| ==> TonPasses(events[i], nano)
  {
  }

  /**
   * An amount written by `generate_amount` with a suffix of at most `places`
   * digits converts to base units whose last `|suffix|` digits are the
   * suffix, which is how a payment is told apart from others of nearly the
   * same value.
   */
  lemma GeneratedAmountCarriesSuffix(num: nat, den: nat, suffix: string, places: nat)
    requires den > 0 && places >= 1 && |suffix| <= places && AllDigits(suffix)
    ensures var r := GenerateAmount(num, den, suffix, places);
      r.Some? && ParseDecimal(r.value).Some?
      && ToBaseUnits(ParseDecimal(r.value).value, places) % Pow10(|suffix|) == DigitsValue(suffix)
  {
    GenerateAmountStamps(num, den, suffix, places);
    var d := ParseDecimal(GenerateAmount(num, den, suffix, places).value).value;
    assert ToBaseUnits(d, places) == d.coef * Pow10(0);
  }

  /** For TON the amount has 9 decimals and a 4-digit suffix: nanotons mod 10^4 is the suffix. */
  lemma TonAmountCarriesSuffix(num: nat, den: nat, suffix: string)
    requires den > 0 && |suffix| == 4 && AllDigits(suffix)
    ensures var r := GenerateAmount(num, den, suffix, TonDecimals);
      r.Some? && Nanotons(r.value).Some? && Nanotons(r.value).value % 10000 == DigitsValue(suffix)
  {
    GeneratedAmountCarriesSuffix(num, den, suffix, TonDecimals);
    assert Pow10(4) == 10000;
  }

  // ---------------------------------------------------------------------
  // SOL (an SPL token)

  /**
   * One instruction of a transaction as `jsonParsed` renders it: the
   * program name when present, and the transfer's destination and
   * `tokenAmount.amount` when those keys are present.
   */
  datatype Instruction = Instruction(program: Option<string>, destination: Option<string>, tokenAmount: Option<string>)

  /**
   * What fetching one signature's transaction gave once the RPC errors
   * stopped, or `RpcDown` when they never stop.
   */
  datatype FetchResult = Fetched(instructions: seq<Instruction>) | FetchFailed | RpcDown

  /** The answers for one signature: how many RPC errors came first, then the result. */
  datatype Fetch = Fetch(rpcErrors: nat, result: FetchResult)

  /** What looking at one instruction or one signature does to the scan; `Stuck` never comes back. */
  datatype Step = Skip | Hit | Crash | Stuck

  /**
   * Only `spl-token` instructions are looked at; a missing key raises
   * (caught, the check answers False); a match needs the destination to be
   * the token account and the amount string to be `str(units)`.
   */
  function InstructionStep(ins: Instruction, ata: string, units: nat): (r: Step)
    ensures r != Stuck
    ensures r == Hit <==>
      && ins.program == Some("spl-token") && ins.destination == Some(ata)
      && ins.tokenAmount.Some? && Canonical(ins.tokenAmount.value) && DigitsValue(ins.tokenAmount.value) == units
    ensures r == Crash ==> ins.program == Some("spl-token")
  {
    NatToStringCanonical(if ins.tokenAmount.Some? then ins.tokenAmount.value else "", units);
    if ins.program != Some("spl-token") then Skip
    else if ins.destination.None? then Crash
    else if ins.destination.value != ata then Skip
    else if ins.tokenAmount.None? then Crash
    else if ins.tokenAmount.value == IntToString(units) then Hit
    else Skip
  }

  /** The first instruction that is not skipped decides a transaction. */
  function ScanInstructions(ins: seq<Instruction>, ata: string, units: nat): (r: Step)
    ensures r != Stuck
  {
    if ins == [] then Skip
    else
      var s := InstructionStep(ins[0], ata, units);
      if s != Skip then s else ScanInstructions(ins[1..], ata, units)
  }

  /** The instruction at `k` matches and every earlier one was skipped. */
  predicate FirstHitAt(ins: seq<Instruction>, k: nat, ata: string, units: nat)
    requires k < |ins|
  {
    InstructionStep(ins[k], ata, units) == Hit && forall j :: 0 <= j < k ==> InstructionStep(ins[j], ata, units) == Skip
  }

  /** Past a skipped first instruction, the first hit of the rest is the first hit of the whole, one place later. */
  lemma FirstHitShift(ins: seq<Instruction>, k: nat, ata: string, units: nat)
    requires 0 < k < |ins| && InstructionStep(ins[0], ata, units) == Skip
    ensures FirstHitAt(ins, k, ata, units) <==> FirstHitAt(ins[1..], k - 1, ata, units)
  {
    assert ins[k] == ins[1..][k - 1];
    if FirstHitAt(ins[1..], k - 1, ata, units) {
      forall j | 0 < j < k ensures InstructionStep(ins[j], ata, units) == Skip {
        assert ins[j] == ins[1..][j - 1];
      }
    }
    if FirstHitAt(ins, k, ata, units) {
      forall j | 0 <= j < k - 1 ensures InstructionStep(ins[1..][j], ata, units) == Skip {
        assert ins[1..][j] == ins[j + 1];
      }
    }
  }

  /** A transaction is a hit exactly when a matching instruction comes before any raising one. */
  lemma {:induction false} ScanInstructionsHit(ins: seq<Instruction>, ata: string, units: nat)
    ensures ScanInstructions(ins, ata, units) == Hit <==> exists k :: 0 <= k < |ins| && FirstHitAt(ins, k, ata, units)
  {
    if ins != [] {
      var s := InstructionStep(ins[0], ata, units);
      if s == Hit {
        assert FirstHitAt(ins, 0, ata, units);
      } else if s == Crash {
        forall k | 0 <= k < |ins| ensures !FirstHitAt(ins, k, ata, units) {
          if k > 0 { assert InstructionStep(ins[0], ata, units) != Skip; }
        }
      } else {
        ScanInstructionsHit(ins[1..], ata, units);
        forall k | 0 < k < |ins| ensures FirstHitAt(ins, k, ata, units) <==> FirstHitAt(ins[1..], k - 1, ata, units) {
          FirstHitShift(ins, k, ata, units);
        }
        if ScanInstructions(ins[1..], ata, units) == Hit {
          var k :| 0 <= k < |ins[1..]| && FirstHitAt(ins[1..], k, ata, units);
          assert FirstHitAt(ins, k + 1, ata, units);
        }
        assert !FirstHitAt(ins, 0, ata, units);
      }
    }
  }

  /**
   * What one signature contributes: a failed fetch raises, endless RPC
   * errors keep the `while True` going, a fetched transaction is scanned.
   */
  function SignatureStep(f: Fetch, ata: string, units: nat): Step
  {
    match f.result
    case FetchFailed => Crash
    case RpcDown => Stuck
    case Fetched(ins) => ScanInstructions(ins, ata, units)
  }

  predicate AllSkip(fetches: seq<Fetch>, n: nat, ata: string, units: nat)
    requires n <= |fetches|
  {
    forall j :: 0 <= j < n ==> SignatureStep(fetches[j], ata, units) == Skip
  }

  /**
   * `Decimal(amount)` scaled to the token's `decimals`, for an amount spelt as
   * ASCII digits with at most one '.' among them; None for any other spelling.
   */
  function TokenUnits(amount: string, decimals: nat): (r: Option<nat>)
    ensures r.Some? <==> ParseDecimal(amount).Some?
    ensures var d := ParseDecimal(amount);
      d.Some? && d.value.exp <= decimals ==> r == Some(d.value.coef * Pow10(decimals - d.value.exp))
  {
    match ParseDecimal(amount)
    case None => None
    case Some(d) => Some(ToBaseUnits(d, decimals))
  }

  /**
   * `check_payment_sol(amount)`, the token account's `decimals` and the
   * answers for each recent signature given: an RPC error retries the same
   * signature, so RPC errors that never stop hang the check; any other
   * exception answers False, and so does a scan that finds nothing.
   */
  method CheckPaymentSol(amount: string, decimals: nat, ata: string, fetches: seq<Fetch>) returns (v: Verdict)
    ensures TokenUnits(amount, decimals).None? <==> v == Raised
    ensures TokenUnits(amount, decimals).Some? ==>
      var units := TokenUnits(amount, decimals).value;
      && (v == Paid <==> exists i :: 0 <= i < |fetches| && SignatureStep(fetches[i], ata, units) == Hit
                                    && AllSkip(fetches, i, ata, units))
      && (v == Hangs <==> exists i :: 0 <= i < |fetches| && SignatureStep(fetches[i], ata, units) == Stuck
                                     && AllSkip(fetches, i, ata, units))
  {
    var parsed := TokenUnits(amount, decimals);
    if parsed.None? {
      return Raised;
    }
    var units := parsed.value;
    for i := 0 to |fetches|
      invariant AllSkip(fetches, i, ata, units)
    {
      var f := fetches[i];
      // `while True`: each of the `f.rpcErrors` RPC errors sleeps and asks
      // again, which changes nothing but the time taken.
      if f.result.RpcDown? {
        FirstStop(fetches, i, ata, units);
        return Hangs;
      }
      if f.result.FetchFailed? {
        FirstStop(fetches, i, ata, units);
        return NotPaid;
      }
      var ins := f.result.instructions;
      var step := ScanInstructionsLoop(ins, ata, units);
      if step != Skip {
        FirstStop(fetches, i, ata, units);
      }
      if step == Hit {
        return Paid;
      }
      if step == Crash {
        return NotPaid;
      }
    }
    v := NotPaid;
  }

  /** The `for index, instr in enumerate(instructions)` loop of one transaction. */
  method ScanInstructionsLoop(ins: seq<Instruction>, ata: string, units: nat) returns (step: Step)
    ensures step == ScanInstructions(ins, ata, units)
  {
    for k := 0 to |ins|
      invariant ScanInstructions(ins, ata, units) == ScanInstructions(ins[k..], ata, units)
    {
      assert ins[k..][1..] == ins[k + 1..];
      var s := InstructionStep(ins[k], ata, units);
      if s != Skip {
        return s;
      }
    }
    step := Skip;
  }

  /** Only one signature can be the first that is not skipped: it alone decides the scan. */
  lemma FirstStop(fetches: seq<Fetch>, i: nat, ata: string, units: nat)
    requires i < |fetches| && AllSkip(fetches, i, ata, units)
    requires SignatureStep(fetches[i], ata, units) != Skip
    ensures forall k :: 0 <= k < |fetches| && AllSkip(fetches, k, ata, units) && SignatureStep(fetches[k], ata, units) != Skip
                        ==> k == i
  {
    var stop := SignatureStep(fetches[i], ata, units);
    forall k | 0 <= k < |fetches|
      ensures AllSkip(fetches, k, ata, units) && SignatureStep(fetches[k], ata, units) != Skip ==> k == i
    {
      if k < i {
        assert SignatureStep(fetches[k], ata, units) == Skip;
      } else if k > i {
        assert AllSkip(fetches, k, ata, units) ==> stop == Skip;
      }
    }
  }
}
