# Decay calculator: a verified model of its server checks and client rendering

The decay calculator is a small Flask service (`app.py`) with a browser client
(`static/js/main.js`). The server converts radioactivity between five units, computes how
much of a dose is left after a given time, and does molar mass, volume and concentration
arithmetic. The client reads the form fields, guards against bad input, posts the form,
and renders the reply into result areas. A 300 ms debounce recomputes after edits.

This project models the parts of both files that can be stated exactly:

- **Server, as pure functions** (`activity_units.dfy`, `elapsed_time.dfy`, `endpoints.dfy`,
  `molar_calc.dfy`):
  - the constant tables;
  - `to_bq`, `from_bq` and `convert_radioactivity`;
  - the ordered input checks of `/calculate` and `/convert` and their error replies;
  - the elapsed-time label;
  - the four molar helpers with their unit normalisation, and the `calc_type` dispatch.

  Python floats are idealised as exact Dafny `real`s.
- **Client, as classes and methods** (`js_text.dfy`, `elements.dfy`, `debounce.dfy`,
  `adapters.dfy`):
  - an `Element` class with `className`, `text` (textContent) and `html` (innerHTML);
  - `setResultWithHighlight` over a faithful model of JavaScript `split`/`join`;
  - the guards and failure messages of `calculateDecay` and `performConversion`;
  - the nothing-to-copy decision of `copyResult`, over a model of `trim`;
  - the `autoCalculate` timer as a discrete-time `Debouncer` class, with a pure `Step`
    function that its methods are proved against;
  - a `Page` class whose tick runs both adapters in order.

Inputs that come from I/O are parameters:

- a parsed form field is an `Option` (`None` where Python's `float()`/`int()` raises
  `ValueError`, or where `parseFloat` gives NaN);
- the server's answer to a `fetch` is an `Answer` value;
- the decay law `2 ** x` is a function parameter `pow2`;
- whether the clipboard call throws is a boolean.

Three facts about the code shape the model:

- The client guard rejects zero as well as negative and non-numeric doses.
- The debounce callback runs calculateDecay, then performConversion.
- The server accepts a zero dose that the client never sends.

## Model

| member | source | states |
|---|---|---|
| ActivityUnits.Factor | app.py:9 | the unit table holds exactly Bq, MBq, GBq, Ci and mCi, each factor is at least 1, and only Bq has factor 1 |
| ActivityUnits.HalfLife | app.py:8 | the isotope table holds exactly F-18 and C-11, each with a positive half-life |
| ActivityUnits.ToBq | app.py:12-14 | to_bq: value × factor(unit); from_bq is its inverse (ActivityUnits.BqRoundTrip) |
| ActivityUnits.FromBq | app.py:16-18 | from_bq: value / factor(unit); to_bq is its inverse (ActivityUnits.BqRoundTrip) |
| ActivityUnits.Convert | app.py:20-22 | convert_radioactivity: through becquerels; its scaling, identity, round trip and composition are ConvertIsScaling, ConvertSameUnit, ConvertRoundTrip and ConvertCompose |
| ActivityUnits.DecayFraction | app.py:26-29 | the fraction 2 ** (−Δt / t½) of the dose left after Δt minutes, with `pow2` for `2 **`; /calculate reports activity and percentage through it (Endpoints.Calculate) |
| ActivityUnits.DecayActivitySameUnit | app.py:24-30 | decay_activity_same_unit with the elapsed minutes given: to Bq, times 2^(−Δt / t½), back to the dose's unit; DecayIsUnitIndependent states its value |
| ActivityUnits.BqRoundTrip | app.py:12-18 | from_bq undoes to_bq and to_bq undoes from_bq, for every unit of the table |
| ActivityUnits.BqIsBase | app.py:9-18 | to_bq and from_bq are the identity for 'Bq' |
| ActivityUnits.ConvertIsScaling | app.py:20-22 | convert_radioactivity multiplies by factor(from) / factor(to) |
| ActivityUnits.ConvertSameUnit | app.py:20-22 | converting to the same unit returns the value unchanged |
| ActivityUnits.ConvertRoundTrip | app.py:20-22 | converting a→b and then b→a returns the original value |
| ActivityUnits.ConvertCompose | app.py:20-22 | converting a→b→c equals converting a→c |
| ActivityUnits.KnownRatios | app.py:9 | 1 Ci = 1000 mCi, 1 GBq = 1000 MBq, 1 mCi = 37 MBq |
| ActivityUnits.DecayIsUnitIndependent | app.py:24-30 | the detour through Bq cancels: the activity is a0 × 2^(−Δt / t½) in the dose's own unit |
| ElapsedTime.RoundHalfEven | app.py:71 | Python round() is within 0.5 of its argument, and on a tie it gives the even integer |
| ElapsedTime.SpanAsWritten | app.py:68-71 | the sign, the hours `dt_abs // 60` and the minutes `round(dt_abs % 60)` as app.py computes them; /calculate uses it (Endpoints.Calculate), SpanAsWrittenShowsSixtyMinutes shows its 60-minute outputs, WholeMinutes its agreement with the corrected label |
| ElapsedTime.SpanAsWrittenShowsSixtyMinutes | app.py:69-71 | as written, 59.6 minutes gives 0 hours and 60 minutes, and 119.7 minutes gives 1 hour and 60 minutes |
| ElapsedTime.ElapsedSpan | app.py:68-71 | sign is '-' iff Δt < 0; minutes < 60; hours × 60 + minutes is the rounded &#124;Δt&#124; |
| ElapsedTime.WholeMinutes | app.py:68-71 | for whole minutes d both labels agree: hours = &#124;d&#124; div 60 and minutes = &#124;d&#124; mod 60 |
| ElapsedTime.Decimal | app.py:72 | str() of a natural number is a non-empty string of digits with no leading zero |
| ElapsedTime.DecimalRoundTrip | app.py:72 | reading the digits of str(n) back gives n |
| ElapsedTime.DecimalInjective | app.py:72 | different numbers render differently |
| ElapsedTime.SpanLabel | app.py:72 | the label f'{h}小时{m}分' when h > 0, else f'{m}分', after the sign of line 76; SpanLabelShape states its shape |
| ElapsedTime.SpanLabelShape | app.py:72 | the label starts with the sign, ends with '分', and has an hours part ('小时') exactly when hours > 0 |
| Endpoints.Calculate | app.py:39-83 | success iff the dose parses, is ≥ 0, isotope and unit are in their tables and the times parse; on success the delta_time label is the one app.py computes (ElapsedTime.SpanAsWritten), the unit is the dose's, activity = a0 × decay fraction, percentage = 100 × fraction, or 0 when a0 = 0 |
| Endpoints.Report | app.py:64-81 | the success payload: the as-written label, the dose's unit, activity a0 × decay fraction and percentage 100 × fraction (0 for a zero dose) |
| Endpoints.PercentOfDose | app.py:73 | a_t / a0 × 100 is 100 × the decay fraction for a positive dose |
| Endpoints.CalculateCheckOrder | app.py:45-62 | the first failing check decides: unparsable dose, then negative dose, then unknown isotope, then unknown unit, then unparsable times, each whatever the later fields hold |
| Endpoints.ZeroDosePercentage | app.py:51-73 | a zero dose passes validation and reports activity 0 and percentage 0 |
| Endpoints.ErrorMessagesNonEmpty | app.py:50-114 | every error reply of /calculate and /convert carries a non-empty message |
| Endpoints.ConvertEndpoint | app.py:90-109 | success iff the value parses, is ≥ 0 and both units are in the table; the result × factor(to) equals value × factor(from) |
| Endpoints.ConvertCheckOrder | app.py:94-102 | a value that `float()` rejects gives '输入格式错误，请输入有效数值' (the `except ValueError` of app.py:111-112) whatever the units; a negative value is rejected whatever the units; otherwise a bad from- or to-unit gives '无效的单位选择' |
| Endpoints.ConvertEndpointRoundTrip | app.py:101-109 | posting a successful result back with the units swapped returns the original value |
| MolarCalc.Normalise | app.py:124-127 | `if unit == milli: x /= 1000`; NormaliseScales states the scaling |
| MolarCalc.NormaliseScales | app.py:124-127 | the milli-unit divides by 1000; any other unit string leaves the value unscaled |
| MolarCalc.CalculateMass | app.py:122-131 | V is normalised by 'mL' and c by 'mmol/L'; grams = M × V × c of the normalised operands, for every unit string; the mg figure is 1000 × the g figure |
| MolarCalc.CalculateVolume | app.py:133-143 | ZeroDivisionError iff M × c = 0; otherwise litres × M × c = m in g, mL = 1000 × L and μL = 1000 × mL |
| MolarCalc.CalculateConcentration | app.py:145-154 | ZeroDivisionError iff M = 0 or V = 0; otherwise mol/L × M × V = m, and mmol/L = 1000 × mol/L |
| MolarCalc.CalculateMolarMass | app.py:156-166 | ZeroDivisionError iff V × c = 0; otherwise g/mol × V × c = m, all three normalised |
| MolarCalc.MassVolumeUnitInvariant | app.py:124-125 | a volume given in mL (1000 × the number) gives the same mass as in L |
| MolarCalc.MassConcentrationUnitInvariant | app.py:126-127 | a concentration given in mmol/L gives the same mass as in mol/L |
| MolarCalc.MassInBaseUnits | app.py:122-131 | grams = M × V × c in base units, and M × V × c / 10^6 for mL and mmol/L |
| MolarCalc.VolumeInvertsMass | app.py:122-143 | the volume helper, given the mass helper's grams, returns the original volume |
| MolarCalc.ConcentrationInvertsMass | app.py:122-154 | the concentration helper, given that mass, returns the original concentration |
| MolarCalc.MolarMassInvertsMass | app.py:122-166 | the molar-mass helper, given that mass, returns the original molar mass |
| MolarCalc.CalculateMolar | app.py:168-205 | /calculate_molar: parse, then dispatch on calc_type; its properties are MolarDispatch, the four Routing lemmas, Input3OnlyForMolarMass and ParseBeforeDispatch |
| MolarCalc.MolarDispatch | app.py:179-198 | '无效的计算类型' iff calc_type is outside {0,1,2,3} |
| MolarCalc.MolarMassRouting | app.py:179-181 | type 0 always replies with the mass helper's result for molar_mass, input1 as the volume and input2 as the concentration: grams = M × V × c of the normalised operands and mg = 1000 × g |
| MolarCalc.VolumeRouting | app.py:183-185 | type 1 replies with the volume helper's outcome for input1 as the mass, molar_mass and input2 as the concentration: 'float division by zero' iff M × c = 0, otherwise litres × M × c = m, mL = 1000 × L and μL = 1000 × mL |
| MolarCalc.ConcentrationRouting | app.py:187-189 | type 2 replies with the concentration helper's outcome for input1 as the mass, molar_mass and input2 as the volume: 'float division by zero' iff M = 0 or V = 0, otherwise mol/L × M × V = m and mmol/L = 1000 × mol/L |
| MolarCalc.MolarMassInverseRouting | app.py:191-195 | type 3 with an unparsable input3 is a format error; otherwise it replies with the molar-mass helper's outcome for input1 as the mass, input2 as the volume and input3 as the concentration: 'float division by zero' iff V × c = 0, otherwise g/mol × V × c = m; molar_mass does not matter |
| MolarCalc.Input3OnlyForMolarMass | app.py:191-194 | for every calc_type other than 3, input3 and input3_unit do not affect the reply |
| MolarCalc.ParseBeforeDispatch | app.py:172-177 | an unparsable calc_type, molar_mass, input1 or input2 gives the format error before any dispatch |
| JsText.Split | static/js/main.js:141 | String.prototype.split with no limit, including the empty separator; SplitOnJoin, SplitOnFirstPiece and Elements.SplitEmptySeparator state its properties |
| JsText.Join | static/js/main.js:145 | Array.prototype.join; SplitOnJoin and Elements.CharsJoin state that it undoes Split |
| JsText.SplitOn | static/js/main.js:141 | split on a non-empty separator always yields at least one piece |
| JsText.SplitOnJoin | static/js/main.js:141-145 | joining the pieces of split(sep) with sep gives back the string |
| JsText.SplitOnFirstPiece | static/js/main.js:141-142 | split gives more than one piece iff sep occurs; the first piece ends where sep first occurs |
| JsText.Trim | static/js/main.js:205 | String.prototype.trim over JavaScript's whitespace and line terminators; TrimSpec and TrimEmptyIffBlank state what it keeps |
| JsText.TrimSpec | static/js/main.js:205 | trim keeps a contiguous middle part, drops only whitespace, and keeps no whitespace at either end |
| JsText.TrimEmptyIffBlank | static/js/main.js:205-207 | the trimmed text is empty iff the text is all whitespace |
| JsText.EscapeHtml | static/js/main.js:147 | innerHTML after a text write is empty iff the text is empty |
| JsText.EscapeHtmlPlain | static/js/main.js:147 | text without &, <, > or NBSP reads back through innerHTML unchanged |
| Elements.Element.SetText | static/js/main.js:147 | a textContent write sets the text, makes innerHTML its escaped form and keeps the class |
| Elements.Element.SetClass | static/js/main.js:138 | a className write changes the class only |
| Elements.Highlight | static/js/main.js:141-148 | the decision of setResultWithHighlight: emphasised around the first occurrence when split gives more than one piece, else plain text; HighlightWhen, HighlightFirstOccurrence, HighlightShowsFullText and HighlightBetween state it |
| Elements.Markup | static/js/main.js:143-147 | innerHTML of a rendering: the pieces concatenated as they are around the highlight-number span (an innerHTML write), or the escaped plain text (a textContent write) |
| Elements.Element.SetResultWithHighlight | static/js/main.js:137-149 | the class always becomes 'result-area highlight'; the page text is fullText; innerHTML is the markup of Highlight |
| Elements.HighlightShowsFullText | static/js/main.js:141-145 | removing the span tags from the rendering gives back fullText exactly, for every highlight string |
| Elements.HighlightWhen | static/js/main.js:141-142 | the highlight applies iff the highlight occurs in the text (for '', iff the text has at least two characters) |
| Elements.HighlightAbsent | static/js/main.js:146-147 | a highlight that does not occur leaves fullText as plain text, unchanged |
| Elements.HighlightFirstOccurrence | static/js/main.js:141-145 | only the first occurrence is wrapped: prefix + highlight + rest = fullText, and the prefix ends at the first occurrence |
| Elements.HighlightBetween | static/js/main.js:141-145 | when the highlight does not end anywhere before its copy after a prefix, the span wraps that copy, with the prefix before it and the rest after it |
| Elements.SplitEmptySeparator | static/js/main.js:141-145 | split('') gives the characters; the first is the prefix and the rest join back to the remainder |
| Elements.CharsJoin | static/js/main.js:141-145 | joining the characters of split('') with '' gives back the text |
| Elements.NothingToCopyIn | static/js/main.js:205-207 | `!textToCopy || textToCopy === '结果将显示在这里'` after trim; NothingToCopyCases states the cases it covers |
| Elements.NothingToCopyCases | static/js/main.js:205-207 | blank text, and the placeholder with any whitespace padding, count as nothing to copy |
| Debounce.Step | static/js/main.js:80-87 | a call discards any pending timer and schedules exactly one run 300 ms later; a tick runs the cycle once iff it is due and clears the handle |
| Debounce.Run | static/js/main.js:80-87 | events applied one Step at a time, collecting the actions run; RunTimeline, BurstRunsOnce and NothingRunsEarly state its outcomes |
| Debounce.Timeline | static/js/main.js:80-83 | the event order of a sequence of input events: the loop reaches each call's time, then the call |
| Debounce.QuietGaps | static/js/main.js:83-86 | the number of pauses of at least 300 ms between consecutive calls, each of which lets the cycle run; RunTimeline counts runs by it |
| Debounce.RunTimeline | static/js/main.js:80-87 | calls followed by a wait run the cycle once per gap of at least 300 ms, plus once after the last call |
| Debounce.BurstRunsOnce | static/js/main.js:80-87 | calls less than 300 ms apart run exactly one cycle: calculateDecay, then performConversion |
| Debounce.NothingRunsEarly | static/js/main.js:83-86 | nothing runs before 300 ms have passed since the last call |
| Debounce.Debouncer.AutoCalculate | static/js/main.js:80-87 | the handle is replaced by one timer due 300 ms after the call |
| Debounce.Debouncer.Tick | static/js/main.js:83-86 | the object's state and the actions it runs are those of Step |
| Adapters.DecayRequestOf | static/js/main.js:94-106 | the form posts isotope, dose and unit unchanged, and each date and time joined by 'T' |
| Adapters.Rejected | static/js/main.js:110 | `!v &#124;&#124; v < 0` rejects exactly the values that are not positive numbers (NaN, 0, negatives) |
| Adapters.FailureMessage | static/js/main.js:128 | `data.error &#124;&#124; fallback`: the server's message when present and non-empty, else the fallback; never empty |
| Adapters.DecayMessage | static/js/main.js:125 | the result template `Δt = …\nA(t) ≈ … …（约为 A0 的 …）`; ExampleMessage renders a worked reply, DecayHighlightOnActivityLine places its emphasis |
| Adapters.DecayView | static/js/main.js:109-134 | what calculateDecay writes for each path; DecayGuard, DecayClassTellsOutcome, FailureShowsServerError and DecaySuccessHighlightsActivity state it, and CalculateDecay applies it |
| Adapters.ConversionView | static/js/main.js:155-184 | what performConversion writes for each path; ConversionGuard, ConversionClassTellsOutcome and FailureShowsServerError state it, and PerformConversion applies it |
| Adapters.DecayGuard | static/js/main.js:109-114 | a rejected dose shows '请输入有效的初始剂量。' with 'result-area error' whatever the server would say; a fetch failure shows the network message |
| Adapters.ConversionGuard | static/js/main.js:155-159 | a rejected value clears conv_result's text and leaves its class unchanged |
| Adapters.DecayClassTellsOutcome | static/js/main.js:110-134 | the class is 'result-area highlight' iff the server answered with success; every other path gives 'result-area error' |
| Adapters.ConversionClassTellsOutcome | static/js/main.js:174-183 | after a request, 'conv-result success' iff the server answered with success, else 'conv-result error' |
| Adapters.FailureShowsServerError | static/js/main.js:127-130 | a server failure shows its error, else '计算失败' / '转换失败'; the text is never empty |
| Adapters.ServerErrorsShownVerbatim | static/js/main.js:128 | every error the server's /calculate and /convert produce is shown exactly as sent |
| Adapters.DecaySuccessHighlightsActivity | static/js/main.js:124-126 | on success the activity is always emphasised, and the page text is the whole message |
| Adapters.DecayHighlightOnActivityLine | static/js/main.js:125-126 | unless the activity text occurs earlier, the span wraps the A(t) figure, with 'Δt = … A(t) ≈ ' before it and the unit and percentage after it |
| Adapters.MissingCharRulesOut | static/js/main.js:141 | a text lacking any character of the highlight does not contain it |
| Adapters.ExampleMessage | static/js/main.js:125 | the template renders the reply (10 days, 12.5, Bq, 50%) as 'Δt = 10 days', a newline, and 'A(t) ≈ 12.5 Bq（约为 A0 的 50%）' |
| Adapters.ExampleActivityNotEarlier | static/js/main.js:141-142 | '12.5' does not occur in that message before the A(t) figure |
| Adapters.ExampleDecayReply | static/js/main.js:124-145 | in that reply exactly the 12.5 of the A(t) line is emphasised |
| Adapters.CalculateDecay | static/js/main.js:89-135 | no result area: nothing happens; a rejected dose: no request, error text and class; otherwise the form is posted and the area shows DecayView |
| Adapters.PerformConversion | static/js/main.js:151-185 | a rejected value: no request, text cleared, class kept; otherwise posts the parsed number and units and shows ConversionView |
| Adapters.CopyResult | static/js/main.js:187-243 | nothing to copy: the clipboard is not called, and the button shows '无结果可复制'; otherwise the trimmed text is passed to the clipboard call (whether or not the copy succeeds), and the button shows '复制失败' iff the clipboard call throws, else '已复制 ✓' |
| Adapters.Page.Tick | static/js/main.js:83-86 | when the timer fires, calculateDecay then performConversion run, and a missing element sends no request; otherwise no element changes and no request is made |
| Adapters.Page.AutoCalculate | static/js/main.js:80-87 | a field change leaves exactly one timer, due 300 ms later |

## Left out

- Network and framework plumbing is not modelled: `fetch`, `FormData` transport, Flask routing, `jsonify`, `/` and `/health`. An answer is a parameter, and each adapter's writes are applied at once.
- Response order is not modelled. The real page can apply a late, stale reply after a newer cycle; the model does not capture that race.
- Page wiring is not modelled: `getElementById` on the input fields, `bindEventListeners`, `initializeApp` and `setCurrentTime`. They depend on the DOM and on the wall clock.
- The molar-mass form handler and the tab switching of the extended page are not part of this model. They are not in static/js/main.js.
- The clipboard API, the `execCommand` fallback and the 2-second label-revert timers are browser I/O. Whether the clipboard call throws is a boolean parameter. The fallback ignores `execCommand`'s return value, so a fallback copy that fails without throwing still shows '已复制 ✓'; the model shows the same.
- The decay law `2 ** x` is transcendental. Over reals it is the parameter `pow2`.
- Float rounding (`round(…, 4)`, `round(…, 2)`) is not modelled. Neither are the format specifiers `:.1f`, `:.2f`, `:g` and `:.4g`, or the formula and result text of `/calculate_molar`. Replies carry exact reals and the normalised operands.
- Non-finite floats are not modelled (`float('nan')`, `float('inf')`, and `parseFloat` giving `Infinity`).
- Parsing is not modelled. `datetime.fromisoformat` is replaced by the elapsed minutes, or `None` when a time does not parse. A missing time field raises `TypeError` in Python rather than `ValueError`, so its message differs; the model gives it the format message.
- The other `except Exception` paths are not modelled, apart from `ZeroDivisionError` in the molar helpers (message 'float division by zero').
- Endpoints.Calculate: the float overflow of `2 ** (-(delta_min / t_half))` (app.py:29) is not modelled, because `2 **` is the parameter `pow2` over exact reals. A target time more than about 1024 half-lives before the reference (about 14.4 days for C-11, about 78 days for F-18) makes Python raise OverflowError, and the server replies '计算失败: (34, ...)'. The model reports success for every such input.
- `parseFloat`'s prefix parsing is not modelled; its result is a parameter.
- The HTML-to-text step of `copyResult` (a temporary div) is not modelled. The model copies the result area's textContent, which is what that step yields.
- Elements.Element.SetResultWithHighlight: sets the page text to fullText without parsing the markup. This holds only while fullText contains no '<' or '&'. The server's numbers, units and labels contain neither.
- Strings are sequences of Unicode scalar values, whereas JavaScript strings are UTF-16 code units. For a character outside the Basic Multilingual Plane, JavaScript's `split('')` gives two surrogate halves where the model gives one character. The server's numbers and units are plain ASCII.
- `formatTime`, `getBeijingTime` and `isValidNumber` are not modelled. They read the clock or are never called.

## Findings

| source | as written | input that shows it | evidently intended | confidence | as-written member | corrected member |
|---|---|---|---|---|---|---|
| app.py:70-72 | `m = int(round(dt_abs % 60))` rounds the minutes after the hours are split off, so a remainder of 59.5 or more rounds to 60 without carrying | Δt = 59.6 min gives h = 0, m = 60, label '+60分'; Δt = 119.7 min gives '+1小时60分'. Reachable when a posted time carries seconds | round the elapsed minutes once, then split them into hours and minutes below 60 | not executed; the page's HH:MM fields give whole minutes, for which both agree (ElapsedTime.WholeMinutes) | ElapsedTime.SpanAsWrittenShowsSixtyMinutes | ElapsedTime.ElapsedSpan |
