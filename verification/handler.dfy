/** The error handler (`Webino_ErrorHandler`): the accessors the page is
    built from, the widget pipeline (`getWidgets`, the postprocess fold),
    `_render`, and the `writeError` sequence of events, rendering, writing
    and termination. */
module ErrorHandler {
  import opened Wrappers
  import opened Types
  import opened Text
  import Numbers
  import TraceResolver
  import WidgetBase
  import Widgets
  import CallStackWidget
  import opened Compositor
  import opened Renderer

  const DefaultErrorTitle := "Error"
  const TitleMessageLength := 40
  const TitleSeparator := "... | "
  const TitleSuffix := " | Webino | Open Source Website System"
  const NonBreakingSpace := "&nbsp;"
  const ProtectedSpace := "<![CDATA[&nbsp;]]>"

  /** The handler's state: the reported error, the options it was reported
      with, the resolved exception and the active widgets. */
  datatype Handler = Handler(
    code: int,
    message: string,
    location: Location,
    context: map<string, string>,
    options: Options,
    exception: Option<Exception>,
    active: seq<ActiveWidget>
  )

  /** A freshly constructed handler; only the empty widget list matters
      before the first `writeError`. */
  const Initial := Handler(0, "", Location("", None), map[], NoOptions, None, [])

  // ---------------------------------------------------------------------
  // Accessors
  // ---------------------------------------------------------------------

  /** `getErrorTitle`: the configured title for the error code, else
      `Error`, HTML-escaped. */
  function GetErrorTitle(h: Handler): (r: string)
    ensures h.code in h.options.errorTitle ==> Unescape(r) == h.options.errorTitle[h.code]
    ensures h.code !in h.options.errorTitle ==> r == DefaultErrorTitle
    ensures Escaped(r)
  {
    if h.code in h.options.errorTitle then
      EscapeRoundTrip(h.options.errorTitle[h.code]);
      EscapeIsEscaped(h.options.errorTitle[h.code]);
      Escape(h.options.errorTitle[h.code])
    else
      EscapePlain(DefaultErrorTitle);
      EscapeIsEscaped(DefaultErrorTitle);
      Escape(DefaultErrorTitle)
  }

  /** The contract of `getErrorTitle` pins the title down: it is the
      `htmlspecialchars` escaping of the configured title. */
  lemma ErrorTitleIsEscapedTitle(h: Handler)
    requires h.code in h.options.errorTitle
    ensures GetErrorTitle(h) == Escape(h.options.errorTitle[h.code])
  {
    EscapedUnique(GetErrorTitle(h));
  }

  /** `getErrorNote`: the exception class in brackets, or nothing when the
      error was not an exception. */
  function GetErrorNote(h: Handler): (r: string)
    ensures h.exception.None? <==> r == ""
    ensures h.exception.Some? ==> r == "(" + h.exception.value.className + ")"
  {
    match h.exception
    case None => ""
    case Some(e) => "(" + e.className + ")"
  }

  /** `getTitle`: the first 40 characters of the stripped message, the
      literal ellipsis, the upper-cased error title and the product name. */
  function GetTitle(h: Handler, host: Host): (r: string)
    ensures var shown := Head(host.stripTags(h.message), TitleMessageLength);
            && StartsWith(r, shown + TitleSeparator)
            && StartsWith(host.stripTags(h.message), shown)
            && |shown| == if |host.stripTags(h.message)| < TitleMessageLength then |host.stripTags(h.message)| else TitleMessageLength
    ensures EndsWith(r, ToUpper(GetErrorTitle(h)) + TitleSuffix)
    ensures |r| == |Head(host.stripTags(h.message), TitleMessageLength)| + |TitleSeparator| + |GetErrorTitle(h)| + |TitleSuffix|
  {
    var shown := Head(host.stripTags(h.message), TitleMessageLength);
    var upper := ToUpper(GetErrorTitle(h));
    ConcatEnds(shown + TitleSeparator, upper + TitleSuffix);
    (shown + TitleSeparator) + (upper + TitleSuffix)
  }

  function OptionalLineText(line: Option<int>): string {
    match line
    case None => ""
    case Some(n) => Numbers.IntToDecimal(n)
  }

  /** `getErrorFileCode`: the highlighted excerpt around the error line with
      every `&nbsp;` wrapped in CDATA. */
  function GetErrorFileCode(h: Handler, host: Host): (r: string)
    ensures var code := host.highlight(h.location.file, h.location.line);
            var pieces := Split(code, NonBreakingSpace);
            && code == Join(pieces, NonBreakingSpace)
            && r == Join(pieces, ProtectedSpace)
    ensures !Contains(host.highlight(h.location.file, h.location.line), NonBreakingSpace) ==>
              r == host.highlight(h.location.file, h.location.line)
  {
    var code := host.highlight(h.location.file, h.location.line);
    ProtectSpaces(code);
    ReplaceAll(code, NonBreakingSpace, ProtectedSpace)
  }

  lemma ProtectSpaces(code: string)
    ensures var pieces := Split(code, NonBreakingSpace);
            && code == Join(pieces, NonBreakingSpace)
            && ReplaceAll(code, NonBreakingSpace, ProtectedSpace) == Join(pieces, ProtectedSpace)
    ensures !Contains(code, NonBreakingSpace) ==> ReplaceAll(code, NonBreakingSpace, ProtectedSpace) == code
  {
    ReplaceAllJoinsPieces(code, NonBreakingSpace, ProtectedSpace);
    SplitJoinRoundTrip(code, NonBreakingSpace);
    if !Contains(code, NonBreakingSpace) {
      ReplaceAllAbsent(code, NonBreakingSpace, ProtectedSpace);
    }
  }

  /** The handler as the layout sees it, given the output of `getWidgets`. */
  function MakeView(h: Handler, host: Host, widgets: string): View {
    View(
      GetTitle(h, host),
      GetErrorTitle(h),
      Escape(Numbers.IntToDecimal(h.code)),
      Escape(h.message),
      GetErrorNote(h),
      Escape(h.location.file),
      Escape(OptionalLineText(h.location.line)),
      GetErrorFileCode(h, host),
      widgets
    )
  }

  // ---------------------------------------------------------------------
  // getWidgets
  // ---------------------------------------------------------------------

  /** Why `getWidgets` throws `HandlerException`. */
  datatype WidgetError = ClassNotFound(name: string) | NotAWidget(name: string)

  /** The widget object of one configuration entry: a given instance as it
      is, or a new instance of the named class built from the handler's
      state and passed to the dependency injector when `inject` is set. */
  function Instantiate(c: WidgetConfig, h: Handler, host: Host): (r: Result<Widget, WidgetError>)
    ensures c.widgetRef.Instance? ==> r == Success(c.widgetRef.widget)
    ensures c.widgetRef.ClassName? && c.widgetRef.name !in host.classes ==> r == Failure(ClassNotFound(c.widgetRef.name))
    ensures c.widgetRef.ClassName? && c.widgetRef.name in host.classes && !host.classes[c.widgetRef.name].isWidget ==>
              r == Failure(NotAWidget(c.widgetRef.name))
    ensures c.widgetRef.ClassName? && r.Success? && c.inject.None? ==>
              r.value.data == ErrorData(Some(h.code), Some(h.message), Some(h.location.file), h.location.line,
                                        h.context, h.options, h.exception)
    ensures c.widgetRef.ClassName? && c.widgetRef.name in host.classes && host.classes[c.widgetRef.name].isWidget ==>
              r.Success?
    ensures c.widgetRef.ClassName? && r.Success? && c.inject.None? ==>
              r.value == WidgetBase.Construct(host.classes[c.widgetRef.name].kind, Some(h.code), Some(h.message),
                                              Some(h.location.file), h.location.line, h.context, h.options, h.exception)
    ensures r.Failure? ==> c.widgetRef.ClassName?
  {
    match c.widgetRef
    case Instance(w) => Success(w)
    case ClassName(name) =>
      if name !in host.classes then Failure(ClassNotFound(name))
      else if !host.classes[name].isWidget then Failure(NotAWidget(name))
      else
        var w := WidgetBase.Construct(host.classes[name].kind, Some(h.code), Some(h.message), Some(h.location.file),
                                      h.location.line, h.context, h.options, h.exception);
        Success(if c.inject.Some? then host.inject(w, c.inject.value) else w)
  }

  /** One configuration entry processed: the error it raises, or whether the
      widget suppressed itself and its entry for the active list. */
  function Step(c: WidgetConfig, h: Handler, host: Host): (r: Result<(bool, ActiveWidget), WidgetError>)
    ensures r.Failure? <==> Instantiate(c, h, host).Failure?
    ensures r.Success? ==> r.value.1.script == c.script
    ensures r.Success? ==> r.value.1.widget.data == Instantiate(c, h, host).value.data
    ensures r.Success? ==>
              (r.value.0, r.value.1.widget) == Widgets.Preprocess(Instantiate(c, h, host).value, c.options.GetOr(map[]), host)
  {
    match Instantiate(c, h, host)
    case Failure(e) => Failure(e)
    case Success(w) =>
      var (suppressed, w') := Widgets.Preprocess(w, c.options.GetOr(map[]), host);
      Success((suppressed, ActiveWidget(w', c.script)))
  }

  /** The entries in order until the first failure: the widgets that did not
      suppress themselves, and the failure, if any. */
  function ProcessWidgets(configs: seq<WidgetConfig>, h: Handler, host: Host): (r: (seq<ActiveWidget>, Option<WidgetError>))
    ensures |r.0| <= |configs|
    ensures r.1.None? <==> forall i :: 0 <= i < |configs| ==> Step(configs[i], h, host).Success?
    decreases |configs|
  {
    if |configs| == 0 then ([], None)
    else
      assert forall i :: 1 <= i < |configs| ==> configs[i] == configs[1..][i - 1];
      Prepend(Step(configs[0], h, host), ProcessWidgets(configs[1..], h, host))
  }

  /** One processed entry ahead of the processing of the entries after it:
      a failure discards everything, a suppressed widget is dropped, an
      accepted one goes first. */
  function Prepend(s: Result<(bool, ActiveWidget), WidgetError>, rest: (seq<ActiveWidget>, Option<WidgetError>))
    : (r: (seq<ActiveWidget>, Option<WidgetError>))
    ensures s.Failure? ==> r == ([], Some(s.error))
    ensures s.Success? ==> r.1 == rest.1 && |r.0| == |rest.0| + (if s.value.0 then 0 else 1)
    ensures s.Success? ==> r.0[|r.0| - |rest.0|..] == rest.0
  {
    match s
    case Failure(e) => ([], Some(e))
    case Success(outcome) => ((if outcome.0 then [] else [outcome.1]) + rest.0, rest.1)
  }

  /** Prepending distributes over a split of the remaining entries. */
  lemma PrependAppend(s: Result<(bool, ActiveWidget), WidgetError>, tail: (seq<ActiveWidget>, Option<WidgetError>),
                      rest: (seq<ActiveWidget>, Option<WidgetError>))
    requires s.Success?
    ensures Prepend(s, (tail.0 + rest.0, rest.1)) == (Prepend(s, tail).0 + rest.0, rest.1)
  {
    var kept: seq<ActiveWidget> := if s.value.0 then [] else [s.value.1];
    assert kept + (tail.0 + rest.0) == (kept + tail.0) + rest.0;
  }

  /** `getWidgets`: without a `widgets` option, nothing and no change;
      otherwise the active list is reset to the accepted widgets, which are
      then bound into their templates while their fragments are rendered,
      or, after the widgets accepted so far, the handler exception is
      raised. */
  function GetWidgets(h: Handler, host: Host): (r: (Handler, Result<string, WidgetError>))
    ensures h.options.widgets.None? ==> r == (h, Success(""))
    ensures h.options.widgets.Some? ==>
              var p := ProcessWidgets(h.options.widgets.value, h, host);
              && (r.1.Success? <==> p.1.None?)
              && (r.1.Failure? ==> r.0 == h.(active := p.0) && r.1.error == p.1.value)
              && (r.1.Success? ==> r.0 == h.(active := BindWidgets(p.0, host)) && r.1.value == RenderWidgets(p.0, host))
  {
    match h.options.widgets
    case None => (h, Success(""))
    case Some(configs) =>
      var (active, failure) := ProcessWidgets(configs, h, host);
      match failure
      case Some(e) => (h.(active := active), Failure(e))
      case None => (h.(active := BindWidgets(active, host)), Success(RenderWidgets(active, host)))
  }

  /** The call stack reaches the page: after a successful `getWidgets`, a
      call-stack widget whose template calls `getCallStack` replaces the
      placeholder by its rendered stack. */
  lemma CallStackReachesPostprocess(h: Handler, host: Host, i: int)
    requires h.options.widgets.Some? && GetWidgets(h, host).1.Success?
    requires var p := ProcessWidgets(h.options.widgets.value, h, host).0;
             && 0 <= i < |p| && p[i].widget.CallStack? && p[i].script.Some?
             && CallStackAccessor in host.templateCalls(p[i].script.value)
    ensures var w := ProcessWidgets(h.options.widgets.value, h, host).0[i].widget;
            && i < |GetWidgets(h, host).0.active|
            && Widgets.Postprocess(GetWidgets(h, host).0.active[i].widget, CallStackWidget.Placeholder, host)
               == CallStackWidget.StackMarkup(w.trace, w.applicationPath, host)
  {
    var a := ProcessWidgets(h.options.widgets.value, h, host).0[i];
    Widgets.BoundCallStackFillsPlaceholder(a.widget, host.templateCalls(a.script.value), host);
  }

  /** Processing a list is processing its parts one after the other, once
      the first part raises nothing. */
  lemma {:induction false} ProcessAppend(a: seq<WidgetConfig>, b: seq<WidgetConfig>, h: Handler, host: Host)
    requires ProcessWidgets(a, h, host).1.None?
    ensures ProcessWidgets(a + b, h, host)
         == (ProcessWidgets(a, h, host).0 + ProcessWidgets(b, h, host).0, ProcessWidgets(b, h, host).1)
    decreases |a|
  {
    if |a| == 0 {
      assert a + b == b;
      assert ProcessWidgets(a, h, host).0 == [];
      assert [] + ProcessWidgets(b, h, host).0 == ProcessWidgets(b, h, host).0;
    } else if Step(a[0], h, host).Success? {
      ProcessAppend(a[1..], b, h, host);
      ProcessAppendStep(a, b, h, host);
    }
  }

  /** The inductive step of `ProcessAppend`: an accepted or suppressed first
      entry is processed ahead of the rest of `a + b`. */
  lemma ProcessAppendStep(a: seq<WidgetConfig>, b: seq<WidgetConfig>, h: Handler, host: Host)
    requires |a| > 0 && Step(a[0], h, host).Success?
    requires ProcessWidgets(a[1..] + b, h, host)
          == (ProcessWidgets(a[1..], h, host).0 + ProcessWidgets(b, h, host).0, ProcessWidgets(b, h, host).1)
    ensures ProcessWidgets(a + b, h, host)
         == (ProcessWidgets(a, h, host).0 + ProcessWidgets(b, h, host).0, ProcessWidgets(b, h, host).1)
  {
    AppendTail(a, b);
    ProcessUnfold(a + b, h, host);
    ProcessUnfold(a, h, host);
    PrependAppend(Step(a[0], h, host), ProcessWidgets(a[1..], h, host), ProcessWidgets(b, h, host));
  }

  /** One step of the processing: the first entry ahead of the rest. */
  lemma ProcessUnfold(configs: seq<WidgetConfig>, h: Handler, host: Host)
    requires |configs| > 0
    ensures ProcessWidgets(configs, h, host) == Prepend(Step(configs[0], h, host), ProcessWidgets(configs[1..], h, host))
  {
  }

  /** A widget that suppresses itself leaves no trace: the result is the
      same as if it had not been configured. */
  lemma SuppressedWidgetLeavesNoTrace(a: seq<WidgetConfig>, c: WidgetConfig, b: seq<WidgetConfig>, h: Handler, host: Host)
    requires ProcessWidgets(a, h, host).1.None?
    requires Step(c, h, host).Success? && Step(c, h, host).value.0
    ensures ProcessWidgets(a + [c] + b, h, host) == ProcessWidgets(a + b, h, host)
  {
    ProcessAppend(a, [c] + b, h, host);
    ProcessAppend(a, b, h, host);
    assert a + [c] + b == a + ([c] + b);
    assert ([c] + b)[0] == c && ([c] + b)[1..] == b;
    var rest := ProcessWidgets(b, h, host);
    assert ProcessWidgets([c] + b, h, host) == ([] + rest.0, rest.1);
    assert [] + rest.0 == rest.0;
  }

  /** The first failing entry ends the processing: nothing after it is
      instantiated, and the widgets accepted before it stay. */
  lemma FailFast(a: seq<WidgetConfig>, c: WidgetConfig, b: seq<WidgetConfig>, h: Handler, host: Host)
    requires ProcessWidgets(a, h, host).1.None?
    requires Instantiate(c, h, host).Failure?
    ensures ProcessWidgets(a + [c] + b, h, host)
         == (ProcessWidgets(a, h, host).0, Some(Instantiate(c, h, host).error))
  {
    ProcessAppend(a, [c] + b, h, host);
    assert a + [c] + b == a + ([c] + b);
    assert ([c] + b)[0] == c;
    assert ProcessWidgets([c] + b, h, host) == ([], Some(Instantiate(c, h, host).error));
    assert ProcessWidgets(a, h, host).0 + [] == ProcessWidgets(a, h, host).0;
  }

  /** When every entry is instantiated and none suppresses itself, each
      becomes active, in configuration order. */
  lemma {:induction false} AllAccepted(configs: seq<WidgetConfig>, h: Handler, host: Host)
    requires forall i :: 0 <= i < |configs| ==> Step(configs[i], h, host).Success? && !Step(configs[i], h, host).value.0
    ensures ProcessWidgets(configs, h, host).1.None?
    ensures |ProcessWidgets(configs, h, host).0| == |configs|
    ensures forall i :: 0 <= i < |configs| ==> ProcessWidgets(configs, h, host).0[i] == Step(configs[i], h, host).value.1
    decreases |configs|
  {
    if |configs| > 0 {
      assert Step(configs[0], h, host).Success?;
      assert forall i :: 1 <= i < |configs| ==> configs[i] == configs[1..][i - 1];
      AllAccepted(configs[1..], h, host);
    }
  }

  // ---------------------------------------------------------------------
  // _render
  // ---------------------------------------------------------------------

  /** Each active widget's `postprocess` in list order, each receiving the
      previous one's output. */
  function PostprocessAll(active: seq<ActiveWidget>, html: string, host: Host): (r: string)
    ensures |active| == 0 ==> r == html
    decreases |active|
  {
    if |active| == 0 then html
    else PostprocessAll(active[1..], Widgets.Postprocess(active[0].widget, html, host), host)
  }

  /** The fold over a concatenation is the fold over the second part applied
      to the fold over the first. */
  lemma {:induction false} PostprocessAllAppend(a: seq<ActiveWidget>, b: seq<ActiveWidget>, html: string, host: Host)
    ensures PostprocessAll(a + b, html, host) == PostprocessAll(b, PostprocessAll(a, html, host), host)
    decreases |a|
  {
    if |a| == 0 {
      assert a + b == b;
    } else {
      assert (a + b)[0] == a[0];
      assert (a + b)[1..] == a[1..] + b;
      PostprocessAllAppend(a[1..], b, Widgets.Postprocess(a[0].widget, html, host), host);
    }
  }

  /** The last widget's `postprocess` sees what all earlier ones produced. */
  lemma LastWidgetSeesEarlierOutput(a: seq<ActiveWidget>, w: ActiveWidget, html: string, host: Host)
    ensures PostprocessAll(a + [w], html, host) == Widgets.Postprocess(w.widget, PostprocessAll(a, html, host), host)
  {
    PostprocessAllAppend(a, [w], html, host);
    assert [w][1..] == [];
  }

  /** Widgets that keep the default `postprocess` leave the page as it is. */
  lemma {:induction false} DefaultWidgetsKeepPage(active: seq<ActiveWidget>, html: string, host: Host)
    requires forall i :: 0 <= i < |active| ==> active[i].widget.Plain?
    ensures PostprocessAll(active, html, host) == html
    decreases |active|
  {
    if |active| > 0 {
      assert forall i :: 1 <= i < |active| ==> active[i] == active[1..][i - 1];
      DefaultWidgetsKeepPage(active[1..], html, host);
    }
  }

  /** The page `render` produces once stage 1 has succeeded: the widgets
      are processed while the layout is bound, and a widget failure makes
      the result `null` (here the empty text). */
  function BoundPage(h: Handler, widgets: Result<string, WidgetError>, engine: Engine<View>, host: Host): (r: string)
    ensures widgets.Failure? ==> r == ""
    ensures widgets.Success? ==>
              r == Render(h.options.render, Some(MakeView(h, host, widgets.value)), engine, host.files).GetOr("")
    ensures widgets.Success? && ComposeAndBind(engine, h.options.render.layout, ScriptMap(h.options.render.scripts, host.files),
                                               MakeView(h, host, widgets.value)).Some? ==>
              StartsWith(r, h.options.render.doctype + EndOfLine)
  {
    var view := if widgets.Success? then Some(MakeView(h, host, widgets.value)) else None;
    var r := Render(h.options.render, view, engine, host.files).GetOr("");
    assert widgets.Success? && ComposeAndBind(engine, h.options.render.layout, ScriptMap(h.options.render.scripts, host.files),
                                              MakeView(h, host, widgets.value)).Some? ==>
           StartsWith(r, h.options.render.doctype + EndOfLine) by {
      if widgets.Success? {
        var bound := ComposeAndBind(engine, h.options.render.layout, ScriptMap(h.options.render.scripts, host.files), view.value);
        if bound.Some? {
          ConcatEnds(h.options.render.doctype + EndOfLine, engine.save(Page(bound.value, h.options.render, view.value.title)));
        }
      }
    }
    r
  }

  /** `_render`: nothing when disabled; otherwise the rendered page passed
      through every active widget's `postprocess`. When stage 1 fails the
      layout never reads the handler, so the widget list is the one left
      by an earlier call. */
  function RenderPage(h: Handler, engine: Engine<View>, host: Host): (r: (Handler, string))
    ensures h.options.disable ==> r == (h, "")
    ensures !h.options.disable && !ComposeSucceeds(h.options.render, engine, host.files) ==>
              r == (h, PostprocessAll(h.active, "", host))
    ensures !h.options.disable && ComposeSucceeds(h.options.render, engine, host.files) ==>
              var (h', widgets) := GetWidgets(h, host);
              r == (h', PostprocessAll(h'.active, BoundPage(h', widgets, engine, host), host))
    ensures r.0.code == h.code && r.0.message == h.message && r.0.location == h.location
    ensures r.0.options == h.options && r.0.exception == h.exception
  {
    if h.options.disable then (h, "")
    else if !ComposeSucceeds(h.options.render, engine, host.files) then (h, PostprocessAll(h.active, "", host))
    else
      var (h', widgets) := GetWidgets(h, host);
      (h', PostprocessAll(h'.active, BoundPage(h', widgets, engine, host), host))
  }

  // ---------------------------------------------------------------------
  // writeError
  // ---------------------------------------------------------------------

  /** The values the start-up listeners receive by reference. */
  datatype Fields = Fields(code: int, message: string, location: Location, context: map<string, string>, options: Options)

  /** The registered listeners, as what they do to the values they are
      given: `errorStartUp` may rewrite the error fields, `errorShutDown`
      the page. */
  datatype Listeners = Listeners(startUp: Fields -> Fields, shutDown: string -> string)

  /** What `writeError` does that can be observed, in order. */
  datatype Event =
    | StartUp(fields: Fields)
    | ShutDown(html: string)
    | Written(html: string)
    | Terminated

  datatype Outcome = Outcome(handler: Handler, events: seq<Event>, html: string)

  /** The events after `errorShutDown`: the page is written when a write
      function is configured, then the application is terminated when a
      terminator is configured. */
  function Closing(html: string, options: Options): (r: seq<Event>)
    ensures var write := !IsEmpty(options.writeFunction);
            var terminate := !IsEmpty(options.terminator);
            && |r| == (if write then 1 else 0) + (if terminate then 1 else 0)
            && (write ==> r[0] == Written(html))
            && (terminate ==> r[|r| - 1] == Terminated)
    ensures forall i :: 0 <= i < |r| ==> r[i].Written? || r[i].Terminated?
  {
    (if !IsEmpty(options.writeFunction) then [Written(html)] else [])
    + (if !IsEmpty(options.terminator) then [Terminated] else [])
  }

  /** `writeError`: record the error (message stripped of tags, location
      and exception resolved), fire `errorStartUp`, render, fire
      `errorShutDown`, then write and terminate as configured. */
  function WriteError(
    h: Handler, code: int, message: string, file: string, line: int, context: map<string, string>,
    options: Options, exception: Option<Exception>, listeners: Listeners, engine: Engine<View>, host: Host
  ): (r: Outcome)
    ensures |r.events| >= 2 && r.events[0].StartUp? && r.events[1].ShutDown?
    ensures var resolved := TraceResolver.TraceException(exception, options.exceptionTraceIndex, Location(file, Some(line)));
            && r.events[0].fields == Fields(code, host.stripTags(message), resolved.location, context, options)
            && r.handler.exception == resolved.exception
    ensures var f := listeners.startUp(r.events[0].fields);
            && r.handler.code == f.code && r.handler.message == f.message && r.handler.location == f.location
            && r.handler.context == f.context && r.handler.options == f.options
    ensures r.html == listeners.shutDown(r.events[1].html)
    ensures r.handler.options.disable ==> r.events[1].html == ""
    ensures r.events[2..] == Closing(r.html, r.handler.options)
    ensures var f := listeners.startUp(r.events[0].fields);
            var h1 := Handler(f.code, f.message, f.location, f.context, f.options, r.handler.exception, h.active);
            (r.handler, r.events[1].html) == RenderPage(h1, engine, host)
  {
    var resolved := TraceResolver.TraceException(exception, options.exceptionTraceIndex, Location(file, Some(line)));
    var recorded := Fields(code, host.stripTags(message), resolved.location, context, options);
    var f := listeners.startUp(recorded);
    var h1 := Handler(f.code, f.message, f.location, f.context, f.options, resolved.exception, h.active);
    var rendered := RenderPage(h1, engine, host);
    Finish(rendered.0, rendered.1, recorded, listeners)
  }

  /** The steps after rendering: `errorShutDown` on the page, then the
      write and the termination as configured. */
  function Finish(h: Handler, page: string, recorded: Fields, listeners: Listeners): (r: Outcome)
    ensures r.handler == h && r.html == listeners.shutDown(page)
    ensures |r.events| >= 2 && r.events[0] == StartUp(recorded) && r.events[1] == ShutDown(page)
    ensures r.events[2..] == Closing(r.html, h.options)
  {
    var html := listeners.shutDown(page);
    var events := [StartUp(recorded), ShutDown(page)] + Closing(html, h.options);
    assert events[2..] == Closing(html, h.options);
    Outcome(h, events, html)
  }

  /** Start-up comes first and shut-down second, exactly once each; the
      write, when there is one, precedes the termination. */
  lemma EventOrder(r: Outcome, h: Handler, code: int, message: string, file: string, line: int,
                   context: map<string, string>, options: Options, exception: Option<Exception>,
                   listeners: Listeners, engine: Engine<View>, host: Host)
    requires r == WriteError(h, code, message, file, line, context, options, exception, listeners, engine, host)
    ensures forall i :: 0 <= i < |r.events| ==> (r.events[i].StartUp? <==> i == 0)
    ensures forall i :: 0 <= i < |r.events| ==> (r.events[i].ShutDown? <==> i == 1)
    ensures forall i, j :: 0 <= i < |r.events| && 0 <= j < |r.events| && r.events[i].Written? && r.events[j].Terminated? ==> i < j
    ensures (exists i :: 0 <= i < |r.events| && r.events[i].Written?) <==> !IsEmpty(r.handler.options.writeFunction)
    ensures (exists i :: 0 <= i < |r.events| && r.events[i].Terminated?) <==> !IsEmpty(r.handler.options.terminator)
  {
    var tail := Closing(r.html, r.handler.options);
    assert forall i :: 2 <= i < |r.events| ==> r.events[i] == tail[i - 2];
    if !IsEmpty(r.handler.options.writeFunction) {
      assert r.events[2].Written?;
    }
    if !IsEmpty(r.handler.options.terminator) {
      assert r.events[|r.events| - 1].Terminated?;
    }
  }

  // ---------------------------------------------------------------------
  // Examples
  // ---------------------------------------------------------------------

  /** A 36-character message is shown whole in the page title, followed by
      the literal ellipsis, and the configured title is upper-cased. */
  lemma TitleExample(h: Handler, host: Host)
    requires host.stripTags(h.message) == "Could not connect to database server"
    requires h.options.errorTitle == map[h.code := "Fatal error"]
    ensures GetTitle(h, host)
         == "Could not connect to database server" + "... | " + "FATAL ERROR" + " | Webino | Open Source Website System"
  {
    var m := host.stripTags(h.message);
    assert Head(m, TitleMessageLength) == m;
    EscapePlain("Fatal error");
    assert GetErrorTitle(h) == "Fatal error";
    UpperCaseExample("Fatal error");
    TitleParts(h, host, m, "FATAL ERROR");
  }

  /** A longer message is cut to its first 40 characters. */
  lemma LongTitleExample(h: Handler, host: Host)
    requires host.stripTags(h.message) == "Call to a member function save() on a non-object in OrderController"
    requires h.code !in h.options.errorTitle
    ensures GetTitle(h, host)
         == "Call to a member function save() on a no" + "... | " + "ERROR" + " | Webino | Open Source Website System"
  {
    var shown := "Call to a member function save() on a no";
    HeadExample(shown, "n-object in OrderController");
    assert GetErrorTitle(h) == "Error";
    UpperCaseExample("Error");
    TitleParts(h, host, shown, "ERROR");
  }

  /** A message longer than the limit is cut right at the limit. */
  lemma HeadExample(shown: string, rest: string)
    requires |shown| == TitleMessageLength && |rest| > 0
    ensures Head(shown + rest, TitleMessageLength) == shown
  {
    assert (shown + rest)[..|shown|] == shown;
  }

  lemma TitleParts(h: Handler, host: Host, shown: string, upper: string)
    requires Head(host.stripTags(h.message), TitleMessageLength) == shown
    requires ToUpper(GetErrorTitle(h)) == upper
    ensures GetTitle(h, host) == shown + TitleSeparator + upper + TitleSuffix
  {
    assert (shown + TitleSeparator) + (upper + TitleSuffix) == shown + TitleSeparator + upper + TitleSuffix;
  }

  lemma UpperCaseExample(s: string)
    requires s == "Fatal error" || s == "Error"
    ensures s == "Fatal error" ==> ToUpper(s) == "FATAL ERROR"
    ensures s == "Error" ==> ToUpper(s) == "ERROR"
  {
    var t := ToUpper(s);
    if s == "Error" {
      assert t[1] == 'R' && t[2] == 'R' && t[3] == 'O' && t[4] == 'R';
    } else {
      assert t[1] == 'A' && t[2] == 'T' && t[3] == 'A' && t[4] == 'L';
      assert t[6] == 'E' && t[7] == 'R' && t[8] == 'R' && t[9] == 'O' && t[10] == 'R';
    }
  }
}
