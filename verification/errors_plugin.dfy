/** The public error-page plugin (`Webino_ControllerPlugin_Errors`): on a
    response that carries exceptions it announces them, declines a plain
    404, and otherwise composes a 500 page from its own options. Unlike the
    handler's renderer it skips empty asset entries, a missing favicon and
    an empty title. */
module ErrorsPlugin {
  import opened Wrappers
  import opened Types
  import opened Text
  import opened Compositor
  import Renderer

  const NotFound := 404
  const ServerError := 500

  /** The plugin's options. `scripts` groups file paths or literal markup
      under block names; `data` is the binding object (empty when unset). */
  datatype PluginOptions = PluginOptions(
    doctype: string,
    title: string,
    layout: string,
    scripts: seq<(string, seq<string>)>,
    data: map<string, string>,
    favicon: Option<Favicon>,
    stylesheets: seq<string>,
    javascripts: seq<string>
  )

  /** The HTTP response the plugin inspects and fills. */
  datatype Response = Response(code: int, exceptions: seq<Exception>, body: string)

  /** What stage 2 binds against: the plugin object itself, or the
      configured data. */
  datatype Binding = PluginItself | Data(values: map<string, string>)

  /** The return value of `dispatchLoopShutdown`: `false`, `null` or `true`. */
  datatype Verdict = Declined | Failed | Rendered

  /** The `applicationError` event, fired with the response's exceptions. */
  datatype AppEvent = ApplicationError(exceptions: seq<Exception>)

  datatype Dispatch = Dispatch(verdict: Verdict, response: Response, events: seq<AppEvent>)

  // ---------------------------------------------------------------------
  // _scripts and _data
  // ---------------------------------------------------------------------

  /** Each entry read as a file when it names one, else taken literally. */
  function Contents(entries: seq<string>, files: map<string, string>): (r: seq<string>)
    ensures |r| == |entries|
    ensures forall j :: 0 <= j < |r| && entries[j] in files ==> r[j] == files[entries[j]]
    ensures forall j :: 0 <= j < |r| && entries[j] !in files ==> r[j] == entries[j]
  {
    seq(|entries|, j requires 0 <= j < |entries| => ReadOrLiteral(files, entries[j]))
  }

  /** `_scripts`: one block per group that has entries, in order; a group
      without entries never gets a key. */
  function ScriptBlocks(groups: seq<(string, seq<string>)>, files: map<string, string>): (r: seq<ScriptBlock>)
    ensures |r| <= |groups|
    ensures |groups| == 0 ==> r == []
    ensures forall k :: 0 <= k < |r| ==> |r[k].fragments| >= 1
    decreases |groups|
  {
    if |groups| == 0 then []
    else
      var (name, entries) := groups[0];
      (if |entries| == 0 then [] else [ScriptBlock(name, Contents(entries, files))])
      + ScriptBlocks(groups[1..], files)
  }

  /** When every group has entries, there is one block per group, with the
      group's name and its entries' contents in order. */
  lemma {:induction false} ScriptBlocksPerGroup(groups: seq<(string, seq<string>)>, files: map<string, string>)
    requires forall i :: 0 <= i < |groups| ==> |groups[i].1| > 0
    ensures |ScriptBlocks(groups, files)| == |groups|
    ensures forall i :: 0 <= i < |groups| ==>
              ScriptBlocks(groups, files)[i] == ScriptBlock(groups[i].0, Contents(groups[i].1, files))
    decreases |groups|
  {
    if |groups| > 0 {
      assert forall i :: 1 <= i < |groups| ==> groups[i] == groups[1..][i - 1];
      ScriptBlocksPerGroup(groups[1..], files);
    }
  }

  /** A group without entries contributes nothing, wherever it stands. */
  lemma {:induction false} EmptyGroupDropped(a: seq<(string, seq<string>)>, name: string, b: seq<(string, seq<string>)>, files: map<string, string>)
    ensures ScriptBlocks(a + [(name, [])] + b, files) == ScriptBlocks(a + b, files)
    decreases |a|
  {
    if |a| == 0 {
      assert a + [(name, [])] + b == [(name, [])] + b;
      assert ([(name, [])] + b)[1..] == b;
      assert a + b == b;
    } else {
      assert (a + [(name, [])] + b)[0] == a[0] && (a + b)[0] == a[0];
      assert (a + [(name, [])] + b)[1..] == a[1..] + [(name, [])] + b;
      assert (a + b)[1..] == a[1..] + b;
      EmptyGroupDropped(a[1..], name, b, files);
    }
  }

  /** `_data`: the configured data, or the plugin itself when there is none. */
  function BindingFor(options: PluginOptions): (r: Binding)
    ensures r.PluginItself? <==> |options.data| == 0
    ensures r.Data? ==> r.values == options.data
  {
    if |options.data| == 0 then PluginItself else Data(options.data)
  }

  // ---------------------------------------------------------------------
  // _favicon, _stylesheets, _javascripts, _title
  // ---------------------------------------------------------------------

  /** The entries PHP does not consider `empty()`, in order. */
  function NonEmpty(entries: seq<string>): (r: seq<string>)
    ensures |r| <= |entries|
    ensures forall x :: x in r <==> x in entries && !IsEmpty(x)
    ensures (forall i :: 0 <= i < |entries| ==> !IsEmpty(entries[i])) ==> r == entries
    decreases |entries|
  {
    if |entries| == 0 then []
    else
      assert forall i :: 1 <= i < |entries| ==> entries[i] == entries[1..][i - 1];
      assert entries == [entries[0]] + entries[1..];
      (if IsEmpty(entries[0]) then [] else [entries[0]]) + NonEmpty(entries[1..])
  }

  /** Filtering keeps the relative order: the filter of a concatenation is
      the concatenation of the filters. */
  lemma {:induction false} NonEmptyAppend(a: seq<string>, b: seq<string>)
    ensures NonEmpty(a + b) == NonEmpty(a) + NonEmpty(b)
    decreases |a|
  {
    if |a| == 0 {
      assert a + b == b;
      assert NonEmpty(a) == [];
    } else {
      NonEmptyAppend(a[1..], b);
      NonEmptyAppendStep(a, b);
    }
  }

  /** The inductive step of `NonEmptyAppend`. */
  lemma NonEmptyAppendStep(a: seq<string>, b: seq<string>)
    requires |a| > 0
    requires NonEmpty(a[1..] + b) == NonEmpty(a[1..]) + NonEmpty(b)
    ensures NonEmpty(a + b) == NonEmpty(a) + NonEmpty(b)
  {
    var kept := if IsEmpty(a[0]) then [] else [a[0]];
    var rest, tail := NonEmpty(a[1..]), NonEmpty(b);
    calc {
      NonEmpty(a + b);
      { NonEmptyUnfold(a + b); AppendTail(a, b); }
      kept + NonEmpty(a[1..] + b);
      kept + (rest + tail);
      { AppendAssoc(kept, rest, tail); }
      (kept + rest) + tail;
      { NonEmptyUnfold(a); }
      NonEmpty(a) + tail;
    }
  }

  /** One step of the filter: the first entry, if kept, ahead of the rest. */
  lemma NonEmptyUnfold(entries: seq<string>)
    requires |entries| > 0
    ensures NonEmpty(entries) == (if IsEmpty(entries[0]) then [] else [entries[0]]) + NonEmpty(entries[1..])
  {
  }

  /** The favicon link, only when a favicon is configured. */
  function FaviconPart(favicon: Option<Favicon>): (r: seq<HeadElement>)
    ensures favicon.None? ==> r == []
    ensures favicon.Some? ==> r == [FaviconLink(favicon.value.mimeType, favicon.value.href)]
  {
    match favicon
    case None => []
    case Some(f) => [FaviconLink(f.mimeType, f.href)]
  }

  /** The elements appended to `<head>`: the favicon when configured, then
      the non-empty stylesheet entries, then the non-empty javascript
      entries. */
  function HeadAssets(options: PluginOptions): (r: seq<HeadElement>)
    ensures var favicon := FaviconPart(options.favicon);
            var styles := NonEmpty(options.stylesheets);
            && |r| == |favicon| + |styles| + |NonEmpty(options.javascripts)|
            && r[..|favicon|] == favicon
            && r[|favicon|..|favicon| + |styles|] == Renderer.Stylesheets(styles)
            && r[|favicon| + |styles|..] == Renderer.Scripts(NonEmpty(options.javascripts))
  {
    var favicon := FaviconPart(options.favicon);
    var styles := Renderer.Stylesheets(NonEmpty(options.stylesheets));
    var scripts := Renderer.Scripts(NonEmpty(options.javascripts));
    var r := favicon + styles + scripts;
    assert r[..|favicon|] == favicon;
    assert r[|favicon|..|favicon| + |styles|] == styles;
    assert r[|favicon| + |styles|..] == scripts;
    r
  }

  /** Without a configured favicon no favicon link is appended. */
  lemma FaviconOnlyWhenConfigured(options: PluginOptions)
    ensures forall e :: e in HeadAssets(options) ==> !e.FaviconLink? || options.favicon.Some?
  {
    if options.favicon.None? {
      var r := HeadAssets(options);
      var n := |NonEmpty(options.stylesheets)|;
      forall i | 0 <= i < |r| ensures !r[i].FaviconLink? {
        if i < n {
          assert r[i] == r[0..n][i];
        } else {
          assert r[i] == r[n..][i - n];
        }
      }
      NoFaviconAmong(r);
    }
  }

  /** From positions to membership: no element is a favicon link. */
  lemma NoFaviconAmong(xs: seq<HeadElement>)
    requires forall i :: 0 <= i < |xs| ==> !xs[i].FaviconLink?
    ensures forall e :: e in xs ==> !e.FaviconLink?
  {
  }

  /** The bound document once the assets are appended and, when a title is
      configured and the layout has a title element, the title set. */
  function Page(doc: Document, options: PluginOptions): (d: Document)
    ensures d.head == doc.head + HeadAssets(options)
    ensures d.tree == doc.tree
    ensures d.title == if !IsEmpty(options.title) && doc.title.Some? then Some(options.title) else doc.title
  {
    var withAssets := AppendHead(doc, HeadAssets(options));
    if IsEmpty(options.title) then withAssets else SetTitle(withAssets, options.title)
  }

  /** The two compositors agree when nothing is left to skip: with a
      favicon configured and no empty entry, the plugin appends exactly what
      the handler's renderer appends. */
  lemma AgreesWithHandlerRenderer(options: PluginOptions, r: RenderOptions)
    requires options.favicon.Some? && r.favicon == options.favicon
    requires r.stylesheets == options.stylesheets && r.javascripts == options.javascripts
    requires forall i :: 0 <= i < |options.stylesheets| ==> !IsEmpty(options.stylesheets[i])
    requires forall i :: 0 <= i < |options.javascripts| ==> !IsEmpty(options.javascripts[i])
    ensures HeadAssets(options) == Renderer.HeadAssets(r)
  {
  }

  /** Where they differ: an empty stylesheet entry is appended by the
      handler's renderer but skipped here, and without a favicon the
      renderer still appends one with empty attributes. */
  lemma DiffersOnEmptyEntries(options: PluginOptions, r: RenderOptions)
    requires options.favicon.None? && r.favicon.None?
    requires options.stylesheets == r.stylesheets == ["skin/main.css", ""]
    requires options.javascripts == r.javascripts == []
    ensures HeadAssets(options) == [StylesheetLink("skin/main.css")]
    ensures Renderer.HeadAssets(r) == [FaviconLink("", ""), StylesheetLink("skin/main.css"), StylesheetLink("")]
  {
    var entries := ["skin/main.css", ""];
    assert NonEmpty(entries) == ["skin/main.css"] by {
      NonEmptyUnfold(entries);
      assert entries[1..] == [""];
      NonEmptyUnfold([""]);
      assert [""][1..] == [];
    }
  }

  // ---------------------------------------------------------------------
  // dispatchLoopShutdown
  // ---------------------------------------------------------------------

  /** `dispatchLoopShutdown`. */
  function DispatchLoopShutdown(options: PluginOptions, response: Response, engine: Engine<Binding>, files: map<string, string>): (r: Dispatch)
    ensures |response.exceptions| == 0 ==> r == Dispatch(Declined, response, [])
    ensures |response.exceptions| > 0 ==> r.events == [ApplicationError(response.exceptions)]
    ensures response.code == NotFound && |response.exceptions| == 1 ==> r.verdict == Declined && r.response == response
    ensures r.verdict.Declined? <==> |response.exceptions| == 0 || (response.code == NotFound && |response.exceptions| == 1)
    ensures r.verdict.Failed? <==>
              !r.verdict.Declined? && ComposeAndBind(engine, options.layout, ScriptBlocks(options.scripts, files), BindingFor(options)).None?
    ensures !r.verdict.Rendered? ==> r.response == response
    ensures r.verdict.Rendered? ==>
              var doc := ComposeAndBind(engine, options.layout, ScriptBlocks(options.scripts, files), BindingFor(options)).value;
              r.response == Response(ServerError, response.exceptions, options.doctype + EndOfLine + engine.save(Page(doc, options)))
  {
    if |response.exceptions| == 0 then Dispatch(Declined, response, [])
    else
      var events := [ApplicationError(response.exceptions)];
      if response.code == NotFound && |response.exceptions| == 1 then Dispatch(Declined, response, events)
      else
        match ComposeAndBind(engine, options.layout, ScriptBlocks(options.scripts, files), BindingFor(options))
        case None => Dispatch(Failed, response, events)
        case Some(doc) =>
          Dispatch(Rendered, response.(code := ServerError, body := Output(engine, options.doctype, Page(doc, options))), events)
  }

  /** A 404 with several exceptions is a real application error: it is
      rendered (or fails), never declined. */
  lemma NotFoundWithSeveralExceptionsIsRendered(options: PluginOptions, response: Response, engine: Engine<Binding>, files: map<string, string>)
    requires response.code == NotFound && |response.exceptions| >= 2
    ensures !DispatchLoopShutdown(options, response, engine, files).verdict.Declined?
  {
  }
}
