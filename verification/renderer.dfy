/** The handler's own page renderer: the script map, the two-stage
    composition bound against the handler, the head assets (every entry,
    empty ones included), the page title and the doctype prefix; and the
    concatenation of the active widgets' fragments. */
module Renderer {
  import opened Wrappers
  import opened Types
  import opened Compositor
  import Widgets

  /** One entry of the handler's active-widget list: the widget object and
      its fragment template, if configured. */
  datatype ActiveWidget = ActiveWidget(widget: Widget, script: Option<string>)

  /** What the layout binds against: the handler's accessors, already
      evaluated, with `widgets` the output of `getWidgets`. */
  datatype View = View(
    title: string,
    errorTitle: string,
    errorCode: string,
    errorMessage: string,
    errorNote: string,
    errorFile: string,
    errorLine: string,
    errorFileCode: string,
    widgets: string
  )

  // ---------------------------------------------------------------------
  // renderWidgets
  // ---------------------------------------------------------------------

  /** The body markup of one widget's fragment; nothing without a script. */
  function WidgetFragment(a: ActiveWidget, host: Host): string {
    if a.script.None? then "" else host.widgetBody(a.script, a.widget)
  }

  /** `renderWidgets`: the fragments of the widgets, in list order. */
  function RenderWidgets(active: seq<ActiveWidget>, host: Host): (r: string)
    ensures (forall i :: 0 <= i < |active| ==> active[i].script.None?) ==> r == ""
    ensures |active| == 1 && active[0].script.Some? ==> r == host.widgetBody(active[0].script, active[0].widget)
  {
    if |active| == 0 then "" else WidgetFragment(active[0], host) + RenderWidgets(active[1..], host)
  }

  /** One entry after `renderWidgets`: a scripted widget has been bound
      into its template; a widget without a script was not touched. */
  function BindEntry(a: ActiveWidget, host: Host): ActiveWidget {
    if a.script.None? then a else ActiveWidget(Widgets.Bind(a.widget, host.templateCalls(a.script.value), host), a.script)
  }

  /** The widget objects as `renderWidgets` leaves them: the list holds the
      objects themselves, so what the getters stored during binding is what
      `postprocess` later sees. */
  function BindWidgets(active: seq<ActiveWidget>, host: Host): (r: seq<ActiveWidget>)
    ensures |r| == |active|
    ensures forall i :: 0 <= i < |r| ==> r[i].script == active[i].script
    ensures forall i :: 0 <= i < |r| && active[i].script.None? ==> r[i] == active[i]
    ensures forall i :: 0 <= i < |r| && active[i].script.Some? ==>
              r[i].widget == Widgets.Bind(active[i].widget, host.templateCalls(active[i].script.value), host)
  {
    seq(|active|, i requires 0 <= i < |active| => BindEntry(active[i], host))
  }

  /** Rendering a list is rendering its parts one after the other. */
  lemma {:induction false} RenderWidgetsAppend(a: seq<ActiveWidget>, b: seq<ActiveWidget>, host: Host)
    ensures RenderWidgets(a + b, host) == RenderWidgets(a, host) + RenderWidgets(b, host)
    decreases |a|
  {
    if |a| == 0 {
      assert a + b == b;
    } else {
      assert (a + b)[1..] == a[1..] + b;
      RenderWidgetsAppend(a[1..], b, host);
    }
  }

  /** A widget without a script contributes nothing, wherever it stands. */
  lemma ScriptlessWidgetSkipped(a: seq<ActiveWidget>, w: ActiveWidget, b: seq<ActiveWidget>, host: Host)
    requires w.script.None?
    ensures RenderWidgets(a + [w] + b, host) == RenderWidgets(a + b, host)
  {
    var ra, rb := RenderWidgets(a, host), RenderWidgets(b, host);
    assert RenderWidgets([w], host) == "" by {
      assert [w][1..] == [];
    }
    RenderWidgetsAppend(a, [w], host);
    assert RenderWidgets(a + [w], host) == ra;
    RenderWidgetsAppend(a + [w], b, host);
    RenderWidgetsAppend(a, b, host);
  }

  // ---------------------------------------------------------------------
  // render
  // ---------------------------------------------------------------------

  /** The stage-1 script map: each configured name with one fragment, the
      contents of the file it names or else the literal text. */
  function ScriptMap(scripts: seq<(string, string)>, files: map<string, string>): (r: seq<ScriptBlock>)
    ensures |r| == |scripts|
    ensures forall i :: 0 <= i < |r| ==> r[i].name == scripts[i].0 && |r[i].fragments| == 1
    ensures forall i :: 0 <= i < |r| && scripts[i].1 in files ==> r[i].fragments[0] == files[scripts[i].1]
    ensures forall i :: 0 <= i < |r| && scripts[i].1 !in files ==> r[i].fragments[0] == scripts[i].1
  {
    seq(|scripts|, i requires 0 <= i < |scripts| => ScriptBlock(scripts[i].0, [ReadOrLiteral(files, scripts[i].1)]))
  }

  /** The favicon link; a missing favicon option gives empty attributes. */
  function FaviconElement(favicon: Option<Favicon>): HeadElement {
    match favicon
    case None => FaviconLink("", "")
    case Some(f) => FaviconLink(f.mimeType, f.href)
  }

  function Stylesheets(links: seq<string>): (r: seq<HeadElement>)
    ensures |r| == |links| && forall i :: 0 <= i < |r| ==> r[i] == StylesheetLink(links[i])
  {
    seq(|links|, i requires 0 <= i < |links| => StylesheetLink(links[i]))
  }

  function Scripts(sources: seq<string>): (r: seq<HeadElement>)
    ensures |r| == |sources| && forall i :: 0 <= i < |r| ==> r[i] == ScriptElement(sources[i])
  {
    seq(|sources|, i requires 0 <= i < |sources| => ScriptElement(sources[i]))
  }

  /** The elements appended to `<head>`: the favicon first, then one link
      per stylesheet entry, then one script per javascript entry, none
      skipped. */
  function HeadAssets(options: RenderOptions): (r: seq<HeadElement>)
    ensures |r| == 1 + |options.stylesheets| + |options.javascripts|
    ensures r[0].FaviconLink?
    ensures options.favicon.None? ==> r[0] == FaviconLink("", "")
    ensures options.favicon.Some? ==> r[0] == FaviconLink(options.favicon.value.mimeType, options.favicon.value.href)
    ensures forall i :: 0 <= i < |options.stylesheets| ==> r[1 + i] == StylesheetLink(options.stylesheets[i])
    ensures forall j :: 0 <= j < |options.javascripts| ==>
              r[1 + |options.stylesheets| + j] == ScriptElement(options.javascripts[j])
  {
    [FaviconElement(options.favicon)] + Stylesheets(options.stylesheets) + Scripts(options.javascripts)
  }

  /** The bound document once the assets are appended and the title set. */
  function Page(doc: Document, options: RenderOptions, title: string): (d: Document)
    ensures d.head == doc.head + HeadAssets(options)
    ensures d.tree == doc.tree
    ensures d.title == if doc.title.Some? then Some(title) else None
  {
    SetTitle(AppendHead(doc, HeadAssets(options)), title)
  }

  /** `render`. `view` is `None` when evaluating the handler during binding
      threw (a widget failure inside `getWidgets`); like any other exception
      of the two stages it makes the result `null`. */
  function Render(options: RenderOptions, view: Option<View>, engine: Engine<View>, files: map<string, string>): (r: Option<string>)
    ensures var blocks := ScriptMap(options.scripts, files);
            r.Some? <==> view.Some? && ComposeAndBind(engine, options.layout, blocks, view.value).Some?
    ensures r.Some? ==>
              var doc := ComposeAndBind(engine, options.layout, ScriptMap(options.scripts, files), view.value).value;
              r.value == options.doctype + EndOfLine + engine.save(Page(doc, options, view.value.title))
  {
    if view.None? then None
    else
      match ComposeAndBind(engine, options.layout, ScriptMap(options.scripts, files), view.value)
      case None => None
      case Some(doc) => Some(Output(engine, options.doctype, Page(doc, options, view.value.title)))
  }

  /** Whether stage 1 succeeds, which is when the layout starts reading
      from the handler. */
  predicate ComposeSucceeds(options: RenderOptions, engine: Engine<View>, files: map<string, string>) {
    engine.compose(options.layout, ScriptMap(options.scripts, files)).Some?
  }
}
