/** The widget interface as the handler sees it: `preprocess` and
    `postprocess` dispatched on the widget's class, with the abstract base's
    defaults for a class that does not override them. */
module Widgets {
  import opened Wrappers
  import opened Types
  import WidgetBase
  import CallStackWidget
  import DevBarWidget
  import Text

  /** `preprocess($options)`: whether the widget is suppressed, and the
      widget's state afterwards. The constructor data is never touched. */
  function Preprocess(w: Widget, options: map<string, string>, host: Host): (r: (bool, Widget))
    ensures r.1.data == w.data
    ensures r.1.Plain? == w.Plain? && r.1.CallStack? == w.CallStack?
    ensures r.1.DevBar? == w.DevBar? && r.1.Custom? == w.Custom?
    ensures w.Plain? ==> r == (false, w)
    ensures w.DevBar? ==> !r.0
    ensures w.Custom? ==> r == (w.suppress(options), w)
  {
    match w
    case Plain(_) => (WidgetBase.DefaultPreprocess(options), w)
    case CallStack(_, _, _, _) => CallStackWidget.Preprocess(w, options, host)
    case DevBar(_, _, _, _) => DevBarWidget.Preprocess(w, options, host)
    case Custom(_, suppress, _) => (suppress(options), w)
  }

  /** `postprocess($html)`. */
  function Postprocess(w: Widget, html: string, host: Host): (r: string)
    ensures w.Plain? ==> r == html
    ensures w.Custom? ==> r == w.decorate(html)
  {
    match w
    case Plain(_) => WidgetBase.DefaultPostprocess(html)
    case CallStack(_, _, _, _) => CallStackWidget.Postprocess(w, html)
    case DevBar(_, _, _, _) => DevBarWidget.Postprocess(w, html, host)
    case Custom(_, _, decorate) => decorate(html)
  }

  // ---------------------------------------------------------------------
  // Binding into a fragment template
  // ---------------------------------------------------------------------

  /** The widget after its template called the getter `a` on it: the
      getter's effect when the widget has it; any other widget is left as
      it is. */
  function Call(w: Widget, a: Accessor, host: Host): (r: Widget)
    ensures r.Plain? == w.Plain? && r.CallStack? == w.CallStack?
    ensures r.DevBar? == w.DevBar? && r.Custom? == w.Custom?
    ensures w.Plain? || w.Custom? ==> r == w
    ensures w.CallStack? ==> r.data == w.data && r.trace == w.trace && r.applicationPath == w.applicationPath
    ensures w.CallStack? ==>
              r.callStack == if a.CallStackAccessor? then CallStackWidget.StackMarkup(w.trace, w.applicationPath, host)
                             else w.callStack
    ensures w.DevBar? ==> r.script == w.script && r.request == w.request && r.applicationTime == w.applicationTime
    ensures w.DevBar? ==>
              r.data == w.data.(options := w.data.options.(memoryPeak := r.data.options.memoryPeak,
                                                           applicationStopTime := r.data.options.applicationStopTime))
    ensures w.DevBar? ==>
              r.data.options.memoryPeak
              == if a.MemoryPeakAccessor? then Some(w.data.options.memoryPeak.GetOr(host.memoryPeak))
                 else w.data.options.memoryPeak
    ensures w.DevBar? ==>
              r.data.options.applicationStopTime
              == if a.ExecutionTimeAccessor? then Some(w.data.options.applicationStopTime.GetOr(host.clock))
                 else w.data.options.applicationStopTime
  {
    match a
    case CallStackAccessor => if w.CallStack? then CallStackWidget.GetCallStack(w, host).1 else w
    case MemoryPeakAccessor => if w.DevBar? then DevBarWidget.GetMemoryPeak(w, host).1 else w
    case ExecutionTimeAccessor => if w.DevBar? then DevBarWidget.GetExecutionTime(w, host).1 else w
  }

  /** The widget once QueryPath has bound it into a template that calls the
      getters `calls`, in order. A call-stack widget holds the rendered stack
      exactly when `getCallStack` was among them; a developer bar holds the
      sampled memory peak and stop time exactly when their getters were;
      default and custom widgets are not changed. */
  function Bind(w: Widget, calls: seq<Accessor>, host: Host): (r: Widget)
    ensures r.Plain? == w.Plain? && r.CallStack? == w.CallStack?
    ensures r.DevBar? == w.DevBar? && r.Custom? == w.Custom?
    ensures w.Plain? || w.Custom? ==> r == w
    ensures w.CallStack? ==> r.data == w.data && r.trace == w.trace && r.applicationPath == w.applicationPath
    ensures w.CallStack? ==>
              r.callStack == if CallStackAccessor in calls then CallStackWidget.StackMarkup(w.trace, w.applicationPath, host)
                             else w.callStack
    ensures w.DevBar? ==> r.script == w.script && r.request == w.request && r.applicationTime == w.applicationTime
    ensures w.DevBar? ==>
              r.data == w.data.(options := w.data.options.(memoryPeak := r.data.options.memoryPeak,
                                                           applicationStopTime := r.data.options.applicationStopTime))
    ensures w.DevBar? ==>
              r.data.options.memoryPeak
              == if MemoryPeakAccessor in calls then Some(w.data.options.memoryPeak.GetOr(host.memoryPeak))
                 else w.data.options.memoryPeak
    ensures w.DevBar? ==>
              r.data.options.applicationStopTime
              == if ExecutionTimeAccessor in calls then Some(w.data.options.applicationStopTime.GetOr(host.clock))
                 else w.data.options.applicationStopTime
    decreases |calls|
  {
    if |calls| == 0 then w
    else
      InSplit(calls, CallStackAccessor);
      InSplit(calls, MemoryPeakAccessor);
      InSplit(calls, ExecutionTimeAccessor);
      Bind(Call(w, calls[0], host), calls[1..], host)
  }

  /** Membership in a non-empty list of calls: the first, or one of the rest. */
  lemma InSplit(calls: seq<Accessor>, a: Accessor)
    requires |calls| > 0
    ensures a in calls <==> a == calls[0] || a in calls[1..]
  {
    assert calls == [calls[0]] + calls[1..];
  }

  /** A call-stack widget bound into a template that calls `getCallStack`
      fills the placeholder with the rendered stack. */
  lemma BoundCallStackFillsPlaceholder(w: Widget, calls: seq<Accessor>, host: Host)
    requires w.CallStack? && CallStackAccessor in calls
    ensures Postprocess(Bind(w, calls, host), CallStackWidget.Placeholder, host)
         == CallStackWidget.StackMarkup(w.trace, w.applicationPath, host)
  {
    Text.ReplaceAllWhole(CallStackWidget.Placeholder, CallStackWidget.StackMarkup(w.trace, w.applicationPath, host));
  }

  /** Without `getCallStack` among the template's calls, the placeholder is
      replaced by whatever the widget held before: for a new widget, nothing. */
  lemma UnboundCallStackEmpties(w: Widget, calls: seq<Accessor>, host: Host)
    requires w.CallStack? && CallStackAccessor !in calls && w.callStack == ""
    ensures Postprocess(Bind(w, calls, host), CallStackWidget.Placeholder, host) == ""
  {
    Text.ReplaceAllWhole(CallStackWidget.Placeholder, "");
  }
}
