/** The developer-bar controller plugin (`Webino_ControllerPlugin_DevBar`):
    a lazily built developer-bar widget, the one-line performance summary,
    and the bar's insertion into every response body. */
module DevBarPlugin {
  import opened Wrappers
  import opened Types
  import opened Text
  import Numbers
  import WidgetBase
  import DevBarWidget

  const ObjectKey := "object"

  /** The plugin's options and its cached widget (`None` until first
      needed, or after `setDevBar(null)`). */
  datatype Plugin = Plugin(options: map<string, string>, devBar: Option<Widget>)

  /** What the plugin needs to build or use its widget: the `object`
      option names a developer-bar class, and a cached widget is one (the
      setter is type-hinted to the developer-bar interface). */
  predicate Ready(p: Plugin, host: Host) {
    && (p.devBar.None? ==>
          ObjectKey in p.options && p.options[ObjectKey] in host.classes
          && host.classes[p.options[ObjectKey]].kind.DevBarKind?)
    && (p.devBar.Some? ==> p.devBar.value.DevBar?)
  }

  /** The widget `getDevBar` builds: no error fields, and the stop time and
      memory peak sampled now. */
  function FreshDevBar(host: Host): (w: Widget)
    ensures w.DevBar? && w.request.None? && w.script.None? && w.applicationTime.None?
    ensures w.data.code.None? && w.data.message.None? && w.data.file.None? && w.data.line.None?
    ensures w.data.exception.None? && w.data.context == map[]
    ensures w.data.options.applicationStopTime == Some(host.clock)
    ensures w.data.options.memoryPeak == Some(host.memoryPeak)
  {
    WidgetBase.Construct(DevBarKind, None, None, None, None, map[],
                         NoOptions.(applicationStopTime := Some(host.clock), memoryPeak := Some(host.memoryPeak)))
  }

  /** `getDevBar`: the cached widget, or a new one which is then cached. */
  function GetDevBar(p: Plugin, host: Host): (r: (Plugin, Widget))
    requires Ready(p, host)
    ensures r.1.DevBar? && r.0.options == p.options && r.0.devBar == Some(r.1)
    ensures p.devBar.Some? ==> r.1 == p.devBar.value
    ensures p.devBar.None? ==> r.1 == FreshDevBar(host)
    ensures Ready(r.0, host)
  {
    match p.devBar
    case Some(w) => (p, w)
    case None =>
      var w := FreshDevBar(host);
      (p.(devBar := Some(w)), w)
  }

  /** The widget is built at most once: asking again, even later, gives the
      same widget and leaves the plugin as it is. */
  lemma BuiltOnce(p: Plugin, host: Host, later: Host)
    requires Ready(p, host)
    ensures Ready(GetDevBar(p, host).0, later)
    ensures GetDevBar(GetDevBar(p, host).0, later) == (GetDevBar(p, host).0, GetDevBar(p, host).1)
  {
  }

  /** `setDevBar`: replaces the cached widget. */
  function SetDevBar(p: Plugin, w: Option<Widget>): (r: Plugin)
    requires w.Some? ==> w.value.DevBar?
    ensures r.options == p.options && r.devBar == w
  {
    Plugin(p.options, w)
  }

  /** A widget that was set is the one `getDevBar` returns. */
  lemma SetThenGet(p: Plugin, w: Widget, host: Host)
    requires w.DevBar?
    ensures Ready(SetDevBar(p, Some(w)), host)
    ensures GetDevBar(SetDevBar(p, Some(w)), host).1 == w
  {
  }

  /** The summary line built from the three figures: each loses all its
      spaces, and they are joined by a space and by ` | `. */
  function Summary(time: string, memory: string, route: string): (r: string)
    ensures r == DropSpaces(time) + " " + DropSpaces(memory) + " | " + DropSpaces(route)
  {
    RemoveSpaces(time) + " " + RemoveSpaces(memory) + " | " + RemoveSpaces(route)
  }

  /** `getOverallPerformance`: the summary of the widget's execution time,
      memory peak and router label. The widget keeps the figures it
      sampled. Without a request there is no router label. */
  function GetOverallPerformance(p: Plugin, host: Host): (r: (Plugin, Option<string>))
    requires Ready(p, host)
    ensures var w := GetDevBar(p, host).1;
            var (time, w1) := DevBarWidget.GetExecutionTime(w, host);
            var (memory, w2) := DevBarWidget.GetMemoryPeak(w1, host);
            && r.0 == Plugin(p.options, Some(w2))
            && (r.1.None? <==> w.request.None?)
            && (r.1.Some? ==> r.1.value == Summary(time, memory, DevBarWidget.GetModuleControllerAction(w2).value))
    ensures Ready(r.0, host)
  {
    var (p1, w) := GetDevBar(p, host);
    var (time, w1) := DevBarWidget.GetExecutionTime(w, host);
    var (memory, w2) := DevBarWidget.GetMemoryPeak(w1, host);
    var p2 := SetDevBar(p1, Some(w2));
    match DevBarWidget.GetModuleControllerAction(w2)
    case None => (p2, None)
    case Some(route) => (p2, Some(Summary(time, memory, route)))
  }

  /** With figures printed as `<number> <unit>` and router names without
      spaces, the summary is `<number><unit> <number><unit> | <m>:<c>:<a>`. */
  lemma SummaryShape(t: string, tu: string, m: string, mu: string, mod: string, ctl: string, act: string)
    requires ' ' !in t && ' ' !in tu && ' ' !in m && ' ' !in mu
    requires ' ' !in mod && ' ' !in ctl && ' ' !in act
    ensures Summary(t + " " + tu, m + " " + mu, mod + " : " + ctl + " : " + act)
         == t + tu + " " + m + mu + " | " + mod + ":" + ctl + ":" + act
  {
    FigureWithoutSpace(t, tu);
    FigureWithoutSpace(m, mu);
    RouteWithoutSpaces(mod, ctl, act);
  }

  /** The summary of a widget whose router names have no spaces: the
      figures the widget reports, each glued to its unit. */
  lemma OverallPerformanceShape(p: Plugin, host: Host)
    requires Ready(p, host)
    requires GetDevBar(p, host).1.request.Some?
    requires var q := GetDevBar(p, host).1.request.value;
             ' ' !in q.moduleName && ' ' !in q.controllerName && ' ' !in q.actionName
    ensures var w := GetDevBar(p, host).1;
            var q := w.request.value;
            var stop := w.data.options.applicationStopTime.GetOr(host.clock);
            var bytes := w.data.options.memoryPeak.GetOr(host.memoryPeak);
            var time := Numbers.FormatHundredths(DevBarWidget.MillisecondHundredths(w.applicationTime.GetOr(0), stop));
            var memory := Numbers.FormatHundredths(DevBarWidget.MegabyteHundredths(bytes));
            GetOverallPerformance(p, host).1
            == Some(time + "ms" + " " + memory + "MB" + " | " + q.moduleName + ":" + q.controllerName + ":" + q.actionName)
  {
    var w := GetDevBar(p, host).1;
    var q := w.request.value;
    var w1 := DevBarWidget.GetExecutionTime(w, host).1;
    var stop := w.data.options.applicationStopTime.GetOr(host.clock);
    var bytes := w.data.options.memoryPeak.GetOr(host.memoryPeak);
    var time := DevBarWidget.MillisecondHundredths(w.applicationTime.GetOr(0), stop);
    var memory := DevBarWidget.MegabyteHundredths(bytes);
    DevBarWidget.FigureTexts(w, host);
    DevBarWidget.FigureTexts(w1, host);
    Numbers.FormatHasNoSpace(time);
    Numbers.FormatHasNoSpace(memory);
    UnitSummary(Numbers.FormatHundredths(time), Numbers.FormatHundredths(memory), q);
  }

  /** `SummaryShape` for the two units the widget prints. */
  lemma UnitSummary(t: string, m: string, q: Request)
    requires ' ' !in t && ' ' !in m
    requires ' ' !in q.moduleName && ' ' !in q.controllerName && ' ' !in q.actionName
    ensures Summary(t + DevBarWidget.TimeUnit, m + DevBarWidget.MemoryUnit,
                    q.moduleName + " : " + q.controllerName + " : " + q.actionName)
         == t + "ms" + " " + m + "MB" + " | " + q.moduleName + ":" + q.controllerName + ":" + q.actionName
  {
    assert t + DevBarWidget.TimeUnit == t + " " + "ms";
    assert m + DevBarWidget.MemoryUnit == m + " " + "MB";
    SummaryShape(t, "ms", m, "MB", q.moduleName, q.controllerName, q.actionName);
  }

  lemma FigureWithoutSpace(figure: string, unit: string)
    requires ' ' !in figure && ' ' !in unit
    ensures DropSpaces(figure + " " + unit) == figure + unit
  {
    DropSpacesAppend(figure + " ", unit);
    DropSpacesAppend(figure, " ");
    DropSpacesKeepsSpaceless(figure);
    DropSpacesKeepsSpaceless(unit);
    assert DropSpaces(" ") == "";
    assert DropSpaces(figure + " ") == figure + "" == figure;
  }

  /** Names without spaces lose only the spaces around the separators. */
  lemma RouteWithoutSpaces(m: string, c: string, a: string)
    requires ' ' !in m && ' ' !in c && ' ' !in a
    ensures DropSpaces(m + " : " + c + " : " + a) == m + ":" + c + ":" + a
  {
    var sep := " : ";
    assert DropSpaces(sep) == ":";
    DropSpacesAppend(m + sep + c + sep, a);
    DropSpacesAppend(m + sep + c, sep);
    DropSpacesAppend(m + sep, c);
    DropSpacesAppend(m, sep);
    DropSpacesKeepsSpaceless(m);
    DropSpacesKeepsSpaceless(c);
    DropSpacesKeepsSpaceless(a);
  }

  /** `dispatchLoopShutdown`: inject the request, run `preprocess` with the
      plugin's own options, and pass the response body through the bar's
      `postprocess`, which inserts the bar before every closing body tag. */
  function DispatchLoopShutdown(p: Plugin, request: Request, body: string, host: Host): (r: (Plugin, string))
    requires Ready(p, host)
    ensures r.0.options == p.options && r.0.devBar.Some? && r.0.devBar.value.DevBar?
    ensures var w := r.0.devBar.value;
            && w.request == Some(request)
            && w.script == WidgetBase.Lookup(p.options, DevBarWidget.ScriptKey)
            && w.data == GetDevBar(p, host).1.data
    ensures var w := r.0.devBar.value;
            var key := DevBarWidget.AppTimeConstantKey;
            && (key in p.options && p.options[key] in host.constants ==>
                  w.applicationTime == Some(host.constants[p.options[key]]))
            && (!(key in p.options && p.options[key] in host.constants) ==> w.applicationTime.None?)
    ensures var w := r.0.devBar.value;
            var pieces := Split(body, DevBarWidget.BodyCloseTag);
            && body == Join(pieces, DevBarWidget.BodyCloseTag)
            && r.1 == Join(pieces, DevBarWidget.Fragment(w, host) + DevBarWidget.BodyCloseTag)
    ensures !Contains(body, DevBarWidget.BodyCloseTag) ==> r.1 == body
  {
    var (p1, w) := GetDevBar(p, host);
    var w1 := DevBarWidget.SetRequest(w, Some(request));
    var (_, w2) := DevBarWidget.Preprocess(w1, p.options, host);
    BarInsertion(w2, body, host);
    (SetDevBar(p1, Some(w2)), DevBarWidget.Postprocess(w2, body, host))
  }

  lemma BarInsertion(w: Widget, body: string, host: Host)
    requires w.DevBar? && w.request.Some?
    ensures var pieces := Split(body, DevBarWidget.BodyCloseTag);
            && body == Join(pieces, DevBarWidget.BodyCloseTag)
            && DevBarWidget.Postprocess(w, body, host)
               == Join(pieces, DevBarWidget.Fragment(w, host) + DevBarWidget.BodyCloseTag)
    ensures !Contains(body, DevBarWidget.BodyCloseTag) ==> DevBarWidget.Postprocess(w, body, host) == body
  {
    DevBarWidget.PostprocessInsertsBeforeBodyClose(w, body, host);
    if !Contains(body, DevBarWidget.BodyCloseTag) {
      DevBarWidget.PostprocessWithoutBodyClose(w, body, host);
    }
  }
}
