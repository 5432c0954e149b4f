/**
 * The request adapters and the copy action of static/js/main.js: calculateDecay
 * (lines 89-135), performConversion (151-185), copyResult (187-243) and the timer
 * callback of autoCalculate that runs the first two (80-87). fetch is replaced by the
 * server's answer, given as a parameter; parseFloat by its result, None for NaN.
 */
module Adapters {
  import opened Wrappers
  import opened JsText
  import opened Elements
  import Debounce
  import Endpoints

  const InvalidDose := "请输入有效的初始剂量。"
  const ResultError := "result-area error"
  const DecayFallback := "计算失败"
  const ConvertFallback := "转换失败"
  const NetworkError := "网络错误，请重试"
  const ConvSuccess := "conv-result success"
  const ConvError := "conv-result error"

  /** What response.json() gave: data.success, data.error and the payload, or a failed fetch. */
  datatype Answer<T> = Answered(success: bool, error: Option<string>, payload: T) | FetchFailed

  /** The string fields of a /calculate success. */
  datatype DecayPayload = DecayPayload(deltaTime: string, activity: string, unit: string,
                                       percentage: string)

  /** The input fields calculateDecay reads. */
  datatype DecayFields = DecayFields(isotope: string, a0Value: string, a0Unit: string,
                                     t0Date: string, t0Time: string, ttDate: string,
                                     ttTime: string)

  /** The FormData posted to /calculate. */
  datatype DecayRequest = DecayRequest(isotope: string, a0Value: string, a0Unit: string,
                                       t0Time: string, ttTime: string)

  /** The FormData posted to /convert: the parsed number, not the raw field text. */
  datatype ConvertRequest = ConvertRequest(value: real, fromUnit: string, toUnit: string)

  /** Each date and time pair is sent as one `dateTtime` string. */
  function DecayRequestOf(f: DecayFields): (r: DecayRequest)
    ensures r.a0Value == f.a0Value && r.isotope == f.isotope && r.a0Unit == f.a0Unit
    ensures |r.t0Time| == |f.t0Date| + 1 + |f.t0Time| && r.t0Time[|f.t0Date|] == 'T'
    ensures r.t0Time[..|f.t0Date|] == f.t0Date && r.t0Time[|f.t0Date| + 1..] == f.t0Time
    ensures |r.ttTime| == |f.ttDate| + 1 + |f.ttTime| && r.ttTime[|f.ttDate|] == 'T'
    ensures r.ttTime[..|f.ttDate|] == f.ttDate && r.ttTime[|f.ttDate| + 1..] == f.ttTime
  {
    DecayRequest(f.isotope, f.a0Value, f.a0Unit, f.t0Date + "T" + f.t0Time, f.ttDate + "T" + f.ttTime)
  }

  /** The guard `!v || v < 0` on a parseFloat result: NaN and 0 are falsy, so only positive numbers pass. */
  predicate Rejected(v: Option<real>): (r: bool)
    ensures r <==> !(v.Some? && v.value > 0.0)
  {
    v.None? || v.value == 0.0 || v.value < 0.0
  }

  /** `data.error || fallback`: the server's message unless it is missing or empty. */
  function FailureMessage(error: Option<string>, fallback: string): (m: string)
    ensures error.Some? && error.value != "" ==> m == error.value
    ensures !(error.Some? && error.value != "") ==> m == fallback
    ensures m == "" ==> fallback == ""
  {
    if error.Some? && error.value != "" then error.value else fallback
  }

  /** The template of line 125. */
  function DecayMessage(p: DecayPayload): string
  {
    DecayPrefix(p) + p.activity + DecaySuffix(p)
  }

  function DecayPrefix(p: DecayPayload): string
  {
    "Δt = " + p.deltaTime + "\nA(t) ≈ "
  }

  function DecaySuffix(p: DecayPayload): string
  {
    " " + p.unit + "（约为 A0 的 " + p.percentage + "）"
  }

  /** What an adapter writes into its result element. */
  datatype View =
    | TextAndClass(text: string, cls: string)  // textContent and className
    | TextOnly(text: string)                   // textContent; className untouched
    | Highlighted(fullText: string, highlight: string)  // setResultWithHighlight

  /** The class an element has after the view is applied, given its class before. */
  function ViewClass(v: View, before: string): string
  {
    match v
    case TextAndClass(_, c) => c
    case TextOnly(_) => before
    case Highlighted(_, _) => HighlightClass
  }

  /** The element shows the view: its text, innerHTML and class. */
  ghost predicate Shows(e: Element, v: View, classBefore: string)
    reads e
  {
    && e.className == ViewClass(v, classBefore)
    && match v
       case TextAndClass(t, _) => e.text == t && e.html == EscapeHtml(t)
       case TextOnly(t) => e.text == t && e.html == EscapeHtml(t)
       case Highlighted(full, h) => e.text == full && e.html == Markup(Highlight(full, h))
  }

  /** calculateDecay's decision for the result area: guard, then success, server failure or fetch failure. */
  function DecayView(a0: Option<real>, answer: Answer<DecayPayload>): View
  {
    if Rejected(a0) then TextAndClass(InvalidDose, ResultError)
    else match answer
      case FetchFailed => TextAndClass(NetworkError, ResultError)
      case Answered(success, error, p) =>
        if success then Highlighted(DecayMessage(p), p.activity)
        else TextAndClass(FailureMessage(error, DecayFallback), ResultError)
  }

  /** performConversion's decision for conv_result: a rejected value only clears the text. */
  function ConversionView(value: Option<real>, answer: Answer<string>): View
  {
    if Rejected(value) then TextOnly("")
    else match answer
      case FetchFailed => TextAndClass(NetworkError, ConvError)
      case Answered(success, error, result) =>
        if success then TextAndClass(result, ConvSuccess)
        else TextAndClass(FailureMessage(error, ConvertFallback), ConvError)
  }

  /**
   * The decay guard: a missing, non-numeric, zero or negative dose shows the invalid-dose
   * message with the error class, whatever the server would have answered; a positive
   * dose never shows it.
   */
  lemma DecayGuard(a0: Option<real>, answer: Answer<DecayPayload>)
    ensures !(a0.Some? && a0.value > 0.0) ==> DecayView(a0, answer) == TextAndClass(InvalidDose, ResultError)
    ensures a0.Some? && a0.value > 0.0 && answer.FetchFailed? ==>
              DecayView(a0, answer) == TextAndClass(NetworkError, ResultError)
  {
  }

  /** The conversion guard clears the text and leaves the class as it was. */
  lemma ConversionGuard(value: Option<real>, answer: Answer<string>, classBefore: string)
    requires !(value.Some? && value.value > 0.0)
    ensures ConversionView(value, answer) == TextOnly("")
    ensures ViewClass(ConversionView(value, answer), classBefore) == classBefore
  {
  }

  /**
   * The class alone tells the decay outcome: highlight exactly for a server success,
   * the error class for every other path.
   */
  lemma DecayClassTellsOutcome(a0: Option<real>, answer: Answer<DecayPayload>, before: string)
    ensures var c := ViewClass(DecayView(a0, answer), before);
            && (c == HighlightClass <==> !Rejected(a0) && answer.Answered? && answer.success)
            && (c != HighlightClass ==> c == ResultError)
  {
  }

  /** The conversion class tells success from failure once a request was made. */
  lemma ConversionClassTellsOutcome(value: Option<real>, answer: Answer<string>, before: string)
    requires !Rejected(value)
    ensures var c := ViewClass(ConversionView(value, answer), before);
            && (c == ConvSuccess <==> answer.Answered? && answer.success)
            && (c != ConvSuccess ==> c == ConvError)
  {
  }

  /** A server failure shows the server's non-empty error, else the fallback, never an empty text. */
  lemma FailureShowsServerError(a0: Option<real>, error: Option<string>, p: DecayPayload,
                                value: Option<real>, result: string)
    requires !Rejected(a0) && !Rejected(value)
    ensures DecayView(a0, Answered(false, error, p)).text
            == (if error.Some? && error.value != "" then error.value else DecayFallback)
    ensures ConversionView(value, Answered(false, error, result)).text
            == (if error.Some? && error.value != "" then error.value else ConvertFallback)
    ensures DecayView(a0, Answered(false, error, p)).text != ""
    ensures ConversionView(value, Answered(false, error, result)).text != ""
  {
  }

  /** Every /calculate and /convert error the server produces is shown verbatim, never the fallback. */
  lemma ServerErrorsShownVerbatim(form: Endpoints.DecayForm, pow2: real -> real,
                                  cform: Endpoints.ConvertForm, a0: Option<real>,
                                  value: Option<real>, p: DecayPayload, result: string)
    requires !Rejected(a0) && !Rejected(value)
    ensures var r := Endpoints.Calculate(form, pow2);
            r.Failure? ==> DecayView(a0, Answered(false, Some(r.error), p)) == TextAndClass(r.error, ResultError)
    ensures var r := Endpoints.ConvertEndpoint(cform);
            r.Failure? ==> ConversionView(value, Answered(false, Some(r.error), result)) == TextAndClass(r.error, ConvError)
  {
    Endpoints.ErrorMessagesNonEmpty(form, pow2, cform);
  }

  /** On success the emphasised part is the activity, and the page text is the whole message. */
  lemma DecaySuccessHighlightsActivity(p: DecayPayload)
    requires p.activity != ""
    ensures Highlight(DecayMessage(p), p.activity).Emphasised?
    ensures Highlight(DecayMessage(p), p.activity).mark == p.activity
    ensures Shown(Highlight(DecayMessage(p), p.activity)) == DecayMessage(p)
  {
    HighlightOccurring(DecayPrefix(p), p.activity, DecaySuffix(p));
  }

  /**
   * Unless the activity text already occurs before the A(t) line's number, the emphasis
   * lands on that number: the part before it is "Δt = … A(t) ≈ ", the part after it the unit
   * and the percentage.
   */
  lemma DecayHighlightOnActivityLine(p: DecayPayload)
    requires p.activity != ""
    requires !Contains(DecayPrefix(p) + p.activity[..|p.activity| - 1], p.activity)
    ensures Highlight(DecayMessage(p), p.activity)
            == Emphasised(DecayPrefix(p), p.activity, DecaySuffix(p))
  {
    HighlightBetween(DecayPrefix(p), p.activity, DecaySuffix(p));
  }

  /** A string that lacks one of the characters of `a` does not contain `a`. */
  lemma MissingCharRulesOut(s: string, a: string, j: nat)
    requires j < |a| && forall k :: 0 <= k < |s| ==> s[k] != a[j]
    ensures !Contains(s, a)
  {
    forall i | 0 <= i <= |s| - |a| ensures !OccursAt(s, a, i) {
      assert s[i..i + |a|][j] == s[i + j];
    }
  }

  /** The worked reply of ExampleDecayReply. */
  function ExamplePayload(): DecayPayload
  {
    DecayPayload("10 days", "12.5", "Bq", "50%")
  }

  lemma ExamplePrefix()
    ensures DecayPrefix(ExamplePayload()) == "Δt = 10 days\nA(t) ≈ "
  {
  }

  lemma ExampleSuffix()
    ensures DecaySuffix(ExamplePayload()) == " Bq（约为 A0 的 50%）"
  {
  }

  /** The template renders the worked reply as the two lines of the result area. */
  lemma ExampleMessage()
    ensures DecayMessage(ExamplePayload()) == "Δt = 10 days\nA(t) ≈ 12.5 Bq（约为 A0 的 50%）"
  {
    ExamplePrefix();
    ExampleSuffix();
  }

  lemma ExampleActivityNotEarlier()
    ensures !Contains("Δt = 10 days\nA(t) ≈ 12.", "12.5")
  {
    var early := "Δt = 10 days\nA(t) ≈ 12.";
    assert forall k :: 0 <= k < |early| ==> early[k] != '5';
    MissingCharRulesOut(early, "12.5", 3);
  }

  /**
   * A worked reply: delta "10 days", activity "12.5", unit "Bq", percentage "50%" is shown
   * as "Δt = 10 days", a newline and "A(t) ≈ 12.5 Bq（约为 A0 的 50%）", with 12.5 emphasised.
   */
  lemma ExampleDecayReply()
    ensures Highlight(DecayMessage(ExamplePayload()), "12.5")
            == Emphasised("Δt = 10 days\nA(t) ≈ ", "12.5", " Bq（约为 A0 的 50%）")
  {
    var p := ExamplePayload();
    ExamplePrefix();
    ExampleSuffix();
    ExampleActivityNotEarlier();
    assert p.activity[..|p.activity| - 1] == "12.";
    assert DecayPrefix(p) + p.activity[..|p.activity| - 1] == "Δt = 10 days\nA(t) ≈ 12.";
    DecayHighlightOnActivityLine(p);
  }

  /** The decay adapter, with the server's answer standing for fetch. */
  method CalculateDecay(resultArea: Element?, fields: DecayFields, a0: Option<real>,
                        answer: Answer<DecayPayload>) returns (sent: Option<DecayRequest>)
    modifies resultArea
    ensures resultArea == null ==> sent == None
    ensures resultArea != null ==>
              && sent == (if Rejected(a0) then None else Some(DecayRequestOf(fields)))
              && Shows(resultArea, DecayView(a0, answer), old(resultArea.className))
  {
    if resultArea == null {
      return None;
    }
    if Rejected(a0) {
      resultArea.SetText(InvalidDose);
      resultArea.SetClass(ResultError);
      return None;
    }
    sent := Some(DecayRequestOf(fields));
    match answer {
      case FetchFailed =>
        resultArea.SetText(NetworkError);
        resultArea.SetClass(ResultError);
      case Answered(success, error, p) =>
        if success {
          resultArea.SetResultWithHighlight(DecayMessage(p), p.activity);
        } else {
          resultArea.SetText(FailureMessage(error, DecayFallback));
          resultArea.SetClass(ResultError);
        }
    }
  }

  /** The conversion adapter, with the server's answer standing for fetch. */
  method PerformConversion(convResult: Element?, value: Option<real>, fromUnit: string,
                           toUnit: string, answer: Answer<string>) returns (sent: Option<ConvertRequest>)
    modifies convResult
    ensures convResult == null ==> sent == None
    ensures convResult != null ==>
              && sent == (if Rejected(value) then None else Some(ConvertRequest(value.value, fromUnit, toUnit)))
              && Shows(convResult, ConversionView(value, answer), old(convResult.className))
  {
    if convResult == null {
      return None;
    }
    if Rejected(value) {
      convResult.SetText("");
      return None;
    }
    sent := Some(ConvertRequest(value.value, fromUnit, toUnit));
    match answer {
      case FetchFailed =>
        convResult.SetText(NetworkError);
        convResult.SetClass(ConvError);
      case Answered(success, error, result) =>
        if success {
          convResult.SetText(result);
          convResult.SetClass(ConvSuccess);
        } else {
          convResult.SetText(FailureMessage(error, ConvertFallback));
          convResult.SetClass(ConvError);
        }
    }
  }

  /**
   * copyResult: with nothing to copy the button says so and the clipboard is not called;
   * otherwise the trimmed text is passed to the clipboard call (`attempted`) and the button
   * reports whether that call threw. `clipboardThrows` stands for the browser: writeText rejecting, or
   * the execCommand fallback throwing. The fallback's return value is ignored, so a copy it
   * fails to make without throwing still reads as copied.
   */
  method CopyResult(resultArea: Element?, copyBtn: Element?, clipboardThrows: bool)
    returns (attempted: Option<string>)
    modifies copyBtn
    ensures resultArea == null || copyBtn == null ==> attempted == None
    ensures copyBtn != null && resultArea == null ==> copyBtn.text == old(copyBtn.text)
    ensures copyBtn != null ==> copyBtn.className == old(copyBtn.className)
    ensures resultArea != null && copyBtn != null ==>
              if NothingToCopyIn(old(resultArea.text)) then
                attempted == None && copyBtn.text == NothingToCopy
              else
                && attempted == Some(Trim(old(resultArea.text)))
                && copyBtn.text == (if clipboardThrows then CopyFailed else Copied)
  {
    if resultArea == null || copyBtn == null {
      return None;
    }
    var textToCopy := Trim(resultArea.text);
    if NothingToCopyIn(resultArea.text) {
      copyBtn.SetText(NothingToCopy);
      return None;
    }
    attempted := Some(textToCopy);
    if !clipboardThrows {
      copyBtn.SetText(Copied);
    } else {
      copyBtn.SetText(CopyFailed);
    }
  }

  /** The page: its three result-related elements and the autoCalculate timer. */
  class Page {
    const result: Element?
    const convResult: Element?
    const copyBtn: Element?
    const timer: Debounce.Debouncer

    constructor (result: Element?, convResult: Element?, copyBtn: Element?)
      ensures this.result == result && this.convResult == convResult && this.copyBtn == copyBtn
      ensures fresh(timer) && timer.State() == Debounce.Idle
    {
      this.result := result;
      this.convResult := convResult;
      this.copyBtn := copyBtn;
      timer := new Debounce.Debouncer();
    }

    /**
     * The event loop reaching time `now`: if the timer is due, its callback runs
     * calculateDecay and then performConversion; otherwise no element changes.
     */
    method Tick(now: int, fields: DecayFields, a0: Option<real>, decayAnswer: Answer<DecayPayload>,
                value: Option<real>, fromUnit: string, toUnit: string, convAnswer: Answer<string>)
      returns (ran: seq<Debounce.Recompute>, decaySent: Option<DecayRequest>, convSent: Option<ConvertRequest>)
      requires result != null && convResult != null ==> result != convResult
      modifies timer, result, convResult
      ensures (timer.State(), ran) == Debounce.Step(old(timer.State()), Debounce.Event.Tick(now))
      ensures ran == [] ==> decaySent == None && convSent == None
      ensures ran == [] && result != null ==> unchanged(result)
      ensures ran == [] && convResult != null ==> unchanged(convResult)
      ensures ran == Debounce.Cycle && result == null ==> decaySent == None
      ensures ran == Debounce.Cycle && convResult == null ==> convSent == None
      ensures ran == Debounce.Cycle && result != null ==>
                && decaySent == (if Rejected(a0) then None else Some(DecayRequestOf(fields)))
                && Shows(result, DecayView(a0, decayAnswer), old(result.className))
      ensures ran == Debounce.Cycle && convResult != null ==>
                && convSent == (if Rejected(value) then None else Some(ConvertRequest(value.value, fromUnit, toUnit)))
                && Shows(convResult, ConversionView(value, convAnswer), old(convResult.className))
    {
      ran := timer.Tick(now);
      decaySent, convSent := None, None;
      if ran == Debounce.Cycle {
        decaySent := CalculateDecay(result, fields, a0, decayAnswer);
        convSent := PerformConversion(convResult, value, fromUnit, toUnit, convAnswer);
      }
    }

    /** A field change: autoCalculate at time `now`. */
    method AutoCalculate(now: int)
      modifies timer
      ensures timer.State() == Debounce.Pending(now + Debounce.QuietPeriodMs)
    {
      timer.AutoCalculate(now);
    }
  }
}
