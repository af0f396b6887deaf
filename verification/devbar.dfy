/** The developer-bar widget (`Webino_ErrorHandler_Widget_DevBar`): never
    suppressed, inserts its own fragment before the closing body tag, and
    reports the execution time, the memory peak and the route. */
module DevBarWidget {
  import opened Wrappers
  import opened Types
  import opened Text
  import opened Numbers
  import WidgetBase

  const ScriptKey := "script"
  const AppTimeConstantKey := "appTimeConstant"
  const BodyCloseTag := "</body>"
  const MemoryUnit := " MB"
  const MemoryDivisor := 1048576
  const TimeUnit := " ms"

  /** `preprocess`: remembers the fragment template and the application start
      time (the value of the constant the options name); always active. */
  function Preprocess(w: Widget, options: map<string, string>, host: Host): (r: (bool, Widget))
    requires w.DevBar?
    ensures !r.0
    ensures r.1.DevBar? && r.1.data == w.data && r.1.request == w.request
    ensures r.1.script == WidgetBase.Lookup(options, ScriptKey)
    ensures AppTimeConstantKey in options && options[AppTimeConstantKey] in host.constants ==>
              r.1.applicationTime == Some(host.constants[options[AppTimeConstantKey]])
    ensures !(AppTimeConstantKey in options && options[AppTimeConstantKey] in host.constants) ==>
              r.1.applicationTime.None?
  {
    var time :=
      if AppTimeConstantKey in options && options[AppTimeConstantKey] in host.constants
      then Some(host.constants[options[AppTimeConstantKey]]) else None;
    (false, w.(script := WidgetBase.Lookup(options, ScriptKey), applicationTime := time))
  }

  /** `setRequest`. */
  function SetRequest(w: Widget, request: Option<Request>): (r: Widget)
    requires w.DevBar?
    ensures r.DevBar? && r.request == request
    ensures r.data == w.data && r.script == w.script && r.applicationTime == w.applicationTime
  {
    DevBar(w.data, w.script, request, w.applicationTime)
  }

  /** The markup inserted before each closing body tag: the body of the
      widget's own template, bound to the widget. */
  function Fragment(w: Widget, host: Host): string
    requires w.DevBar?
  {
    host.widgetBody(w.script, w)
  }

  /** `postprocess`: without a request the page is returned as it is; with
      one, every `</body>` becomes the fragment followed by `</body>`. */
  function Postprocess(w: Widget, html: string, host: Host): (r: string)
    requires w.DevBar?
    ensures w.request.None? || !Contains(html, BodyCloseTag) ==> r == html
    ensures Contains(html, BodyCloseTag) && w.request.Some? ==> Contains(r, Fragment(w, host) + BodyCloseTag)
  {
    if w.request.None? then html
    else
      if !Contains(html, BodyCloseTag) then
        ReplaceAllAbsent(html, BodyCloseTag, Fragment(w, host) + BodyCloseTag);
        ReplaceAll(html, BodyCloseTag, Fragment(w, host) + BodyCloseTag)
      else
        ReplaceAllInserts(html, BodyCloseTag, Fragment(w, host) + BodyCloseTag);
        ReplaceAll(html, BodyCloseTag, Fragment(w, host) + BodyCloseTag)
  }

  /** With a request, only the closing body tags change: the page is the same
      pieces glued with `</body>` before, and with fragment + `</body>` after. */
  lemma PostprocessInsertsBeforeBodyClose(w: Widget, html: string, host: Host)
    requires w.DevBar? && w.request.Some?
    ensures var pieces := Split(html, BodyCloseTag);
            && html == Join(pieces, BodyCloseTag)
            && Postprocess(w, html, host) == Join(pieces, Fragment(w, host) + BodyCloseTag)
            && forall k :: 0 <= k < |pieces| ==> !Contains(pieces[k], BodyCloseTag)
  {
    SplitJoinRoundTrip(html, BodyCloseTag);
    ReplaceAllJoinsPieces(html, BodyCloseTag, Fragment(w, host) + BodyCloseTag);
    SplitPiecesFree(html, BodyCloseTag);
  }

  /** A page without a closing body tag is not changed. */
  lemma PostprocessWithoutBodyClose(w: Widget, html: string, host: Host)
    requires w.DevBar? && !Contains(html, BodyCloseTag)
    ensures Postprocess(w, html, host) == html
  {
    ReplaceAllAbsent(html, BodyCloseTag, Fragment(w, host) + BodyCloseTag);
  }

  // ---------------------------------------------------------------------
  // Metrics
  // ---------------------------------------------------------------------

  /** Megabytes, rounded to two decimals, in hundredths. */
  function MegabyteHundredths(bytes: int): int {
    RoundDiv(bytes * 100, MemoryDivisor)
  }

  /** Milliseconds between two microsecond timestamps, rounded to two
      decimals, in hundredths. */
  function MillisecondHundredths(start: int, stop: int): int {
    RoundDiv(stop - start, 10)
  }

  /** `getMemoryPeak`: the `memoryPeak` option, or the current peak which is
      then stored as that option, shown in megabytes. */
  function GetMemoryPeak(w: Widget, host: Host): (r: (string, Widget))
    requires w.DevBar?
    ensures var bytes := w.data.options.memoryPeak.GetOr(host.memoryPeak);
            && r.1.data.options.memoryPeak == Some(bytes)
            && EndsWith(r.0, MemoryUnit)
            && ParseHundredths(r.0[..|r.0| - |MemoryUnit|]) == MegabyteHundredths(bytes)
    ensures r.1.data == w.data.(options := w.data.options.(memoryPeak := r.1.data.options.memoryPeak))
    ensures r.1.data.options.applicationStopTime == w.data.options.applicationStopTime
    ensures r.1.DevBar? && r.1.script == w.script && r.1.request == w.request
    ensures r.1.applicationTime == w.applicationTime
  {
    var bytes := w.data.options.memoryPeak.GetOr(host.memoryPeak);
    var text := FormatHundredths(MegabyteHundredths(bytes)) + MemoryUnit;
    FormatRoundTrip(MegabyteHundredths(bytes));
    assert text[..|text| - |MemoryUnit|] == FormatHundredths(MegabyteHundredths(bytes));
    (text, DevBar(w.data.(options := w.data.options.(memoryPeak := Some(bytes))), w.script, w.request, w.applicationTime))
  }

  /** `getExecutionTime`: from the start time recorded by `preprocess` (0 when
      it was never recorded) to the `applicationStopTime` option, or to now,
      which is then stored as that option; shown in milliseconds. */
  function GetExecutionTime(w: Widget, host: Host): (r: (string, Widget))
    requires w.DevBar?
    ensures var stop := w.data.options.applicationStopTime.GetOr(host.clock);
            && r.1.data.options.applicationStopTime == Some(stop)
            && EndsWith(r.0, TimeUnit)
            && ParseHundredths(r.0[..|r.0| - |TimeUnit|])
               == MillisecondHundredths(w.applicationTime.GetOr(0), stop)
    ensures r.1.data == w.data.(options := w.data.options.(applicationStopTime := r.1.data.options.applicationStopTime))
    ensures r.1.data.options.memoryPeak == w.data.options.memoryPeak
    ensures r.1.DevBar? && r.1.script == w.script && r.1.request == w.request
    ensures r.1.applicationTime == w.applicationTime
  {
    var stop := w.data.options.applicationStopTime.GetOr(host.clock);
    var h := MillisecondHundredths(w.applicationTime.GetOr(0), stop);
    var text := FormatHundredths(h) + TimeUnit;
    FormatRoundTrip(h);
    assert text[..|text| - |TimeUnit|] == FormatHundredths(h);
    (text, DevBar(w.data.(options := w.data.options.(applicationStopTime := Some(stop))), w.script, w.request, w.applicationTime))
  }

  /** The figures are sampled once: asking again, even at another time, gives
      the same text. */
  lemma MetricsAreStable(w: Widget, host: Host, later: Host)
    requires w.DevBar?
    ensures GetMemoryPeak(GetMemoryPeak(w, host).1, later).0 == GetMemoryPeak(w, host).0
    ensures GetExecutionTime(GetExecutionTime(w, host).1, later).0 == GetExecutionTime(w, host).0
  {
  }

  /** `getModuleControllerAction`: `module : controller : action`; there is no
      label without an injected request. */
  function GetModuleControllerAction(w: Widget): (r: Option<string>)
    requires w.DevBar?
    ensures w.request.None? <==> r.None?
    ensures r.Some? ==>
              var q := w.request.value;
              r.value == q.moduleName + " : " + q.controllerName + " : " + q.actionName
  {
    match w.request
    case None => None
    case Some(q) => Some(q.moduleName + " : " + q.controllerName + " : " + q.actionName)
  }

  /** 6815744 bytes are shown as `6.5 MB`. */
  lemma MemoryPeakExample(w: Widget, host: Host)
    requires w.DevBar? && w.data.options.memoryPeak == Some(6815744)
    ensures GetMemoryPeak(w, host).0 == "6.5 MB"
  {
    assert MegabyteHundredths(6815744) == 650;
    assert NatToDecimal(6) == "6";
    assert FractionDigits(50) == "5";
  }

  /** From 1.000000 s to 1.075260 s is shown as `75.26 ms`. */
  lemma ExecutionTimeExample(w: Widget, host: Host)
    requires w.DevBar? && w.applicationTime == Some(1000000)
    requires w.data.options.applicationStopTime == Some(1075260)
    ensures GetExecutionTime(w, host).0 == "75.26 ms"
  {
    assert MillisecondHundredths(1000000, 1075260) == 7526;
    FigureTexts(w, host);
    TimeFigureExample();
  }

  /** 7526 hundredths of a millisecond print as `75.26 ms`. */
  lemma TimeFigureExample()
    ensures FormatHundredths(7526) + TimeUnit == "75.26 ms"
  {
    assert NatToDecimal(7) == "7";
    assert NatToDecimal(75) == "75";
    assert FractionDigits(26) == "26";
  }

  /** The two figures as printed: the rounded value and its unit. */
  lemma FigureTexts(w: Widget, host: Host)
    requires w.DevBar?
    ensures GetExecutionTime(w, host).0
         == FormatHundredths(MillisecondHundredths(w.applicationTime.GetOr(0),
                                                   w.data.options.applicationStopTime.GetOr(host.clock))) + TimeUnit
    ensures GetMemoryPeak(w, host).0 == FormatHundredths(MegabyteHundredths(w.data.options.memoryPeak.GetOr(host.memoryPeak))) + MemoryUnit
  {
  }
}
