# webino/errors — a Dafny model of the error-page pipeline

This project models the core of the Webino error pipeline for PHP/Zend
applications. When an error or exception reaches `Webino_ErrorHandler::writeError`,
the handler does the following:

- It records the failure. The message is stripped of tags.
- It resolves the location it reports. One level of the exception's cause is
  unwrapped, and a configurable skip depth walks the call stack.
- It fires the `errorStartUp` event.
- It renders an HTML page through `Webino_ErrorHandler_Renderer`, running a
  list of widgets. Widgets can suppress themselves (`preprocess`) and
  decorate the finished page (`postprocess`).
- It fires `errorShutDown`, then writes the page and terminates if configured
  to.

Two built-in widgets are modelled:

- `CallStack` lists the frames.
- `DevBar` inserts a developer bar before `</body>` and reports execution
  time, memory peak and route.

The model also covers:

- The public error-page plugin (`Webino_ControllerPlugin_Errors`).
- The developer-bar plugin (`Webino_ControllerPlugin_DevBar`).
- The application's `Webino_ErrorController::errorAction`.

Everything is pure functions over immutable datatypes. The world outside the
pipeline's logic is passed in as values:

- The `Host` record (`types.dfy`) holds `strip_tags`, readable files, loadable
  classes, stack-capture functions, constants, the clock, the memory counter,
  the dependency injector, the widget template renderer, the getters each
  widget fragment calls while it is bound, and the source highlighter.
- The `Engine` record (`compositor.dfy`) holds QueryPath's two template
  stages and serialisation.
- The `Listeners` record (`handler.dfy`) holds the event listeners.

Modules, one per file:

| file | module | models |
|---|---|---|
| wrappers.dfy | Wrappers | `Option`, `Result` |
| text.dfy | Text | PHP string built-ins: `empty()`, `strstr`, `str_replace`, `substr`, `strtoupper`, `htmlspecialchars` |
| numbers.dfy | Numbers | `round($x, 2)` and PHP's printing of the result, in integer hundredths |
| types.dfy | Types | frames, exceptions, options, widgets, the host |
| trace_resolver.dfy | TraceResolver | `_traceException` |
| widget_base.dfy | WidgetBase | the abstract widget's constructor and default hooks |
| callstack.dfy | CallStackWidget | the call-stack widget |
| devbar.dfy | DevBarWidget | the developer-bar widget |
| widgets.dfy | Widgets | dispatch of `preprocess`/`postprocess` on the widget's class |
| compositor.dfy | Compositor | the two template stages, `<head>` appends, title, doctype |
| renderer.dfy | Renderer | `renderWidgets`, `render` |
| handler.dfy | ErrorHandler | accessors, `getWidgets`, `_render`, `writeError` |
| errors_plugin.dfy | ErrorsPlugin | the public error-page plugin |
| devbar_plugin.dfy | DevBarPlugin | the developer-bar plugin |
| error_controller.dfy | ErrorController | `errorAction` |

Two behaviours of the code are worth stating on their own:

- **Trace walk.** In `_traceException` the first file-bearing frame sets the
  `$skip` counter to 1, and the trailing `$skip++` raises it to 2 straight
  away. So with a skip depth of 1 or 2 the second file-bearing frame is
  adopted. In general the frame adopted is the `max(2, d)`-th file-bearing
  frame (`TraceResolver.DepthTwoPicksSecondFrame`,
  `TraceResolver.DepthsOneAndTwoAgree`).
- **Page title.** The title keeps up to 40 characters of the message, so a
  36-character message such as "Could not connect to database server" is
  shown whole (`ErrorHandler.TitleExample`).

## Model

| member | source | states |
|---|---|---|
| TraceResolver.TraceException | php/Webino/ErrorHandler.php:292-344 | Without an exception, the location passed to `writeError` stands and no exception is kept. Otherwise exactly one level of cause is unwrapped and that cause is kept. With no or zero skip depth for its class, its throw site is reported. With a nonzero depth d, the `max(2,d)`-th file-bearing frame is reported, or the throw site when there are fewer such frames. |
| TraceResolver.WalkIsRepresentative | php/Webino/ErrorHandler.php:320-340 | The `foreach` with its `$skip` counter, as written, computes the reference description: the `max(2,d)`-th file-bearing frame, else the seed. |
| TraceResolver.WalkAfterFirst | php/Webino/ErrorHandler.php:324-338 | Once the first file-bearing frame is behind, the walk adopts the file-bearing frame `max(0, d - skip)` places further on, or keeps the seed. |
| TraceResolver.FileFrames | php/Webino/ErrorHandler.php:326 | Only frames that carry a `file` take part in the count: a frame is among them iff it is in the trace and has a file, and a trace of file-bearing frames is kept whole. |
| TraceResolver.FileFramesAppend | php/Webino/ErrorHandler.php:320-338 | The file-bearing frames of a concatenation are those of each part, in order. |
| TraceResolver.UnwrapsOneLevel | php/Webino/ErrorHandler.php:300-302 | The cause is unwrapped once; the cause's own cause is never reached. |
| TraceResolver.DepthsOneAndTwoAgree | php/Webino/ErrorHandler.php:322-338 | Skip depths 1 and 2 report the same location. |
| TraceResolver.FirstFileFrameSkipped | php/Webino/ErrorHandler.php:326-331 | The first file-bearing frame is never adopted: with only one, the throw site stands. |
| TraceResolver.DepthTwoPicksSecondFrame | php/Webino/ErrorHandler.php:320-340 | Five file-bearing frames and depth 2: the second frame is reported. |
| WidgetBase.Construct | php/Webino/ErrorHandler/Widget/Abstract.php:99-111 | A new widget stores code, message, file, line, context, options and exception exactly as passed, the exception defaulting to null. It is of the requested class, with its own state empty; a custom class's widget carries that class's `preprocess` and `postprocess`. |
| Widgets.Preprocess | php/Webino/ErrorHandler/Widget/Abstract.php:122-125 | A widget that keeps the default is never suppressed and unchanged. The developer bar is never suppressed. No widget's constructor data changes, nor its class. |
| Widgets.Postprocess | php/Webino/ErrorHandler/Widget/Abstract.php:134-137 | A widget that keeps the default returns the page unchanged. |
| Widgets.Call | php/Webino/ErrorHandler/Widget/CallStack.php:149-233 | A getter called from a template keeps the widget's class and error data. `getCallStack` stores the rendered stack in a call-stack widget; `getMemoryPeak` and `getExecutionTime` (DevBar.php:180-210) store their sample in a developer bar and change no other option; anything else leaves the widget. |
| Widgets.Bind | php/Webino/ErrorHandler/Renderer.php:170-176 | Binding keeps the class and error data (for a developer bar, all but the two sampled options), leaves other widgets alone, and stores the rendered stack iff `getCallStack` is among the calls, the memory sample iff `getMemoryPeak` is, the stop time iff `getExecutionTime` is. |
| Widgets.BoundCallStackFillsPlaceholder | php/Webino/ErrorHandler/Widget/CallStack.php:137-152 | A call-stack widget whose fragment called `getCallStack` replaces `{CALLSTACK}` by its rendered stack in `postprocess`. |
| Widgets.UnboundCallStackEmpties | php/Webino/ErrorHandler/Widget/CallStack.php:137-142 | Without that call the stored stack stays empty and `{CALLSTACK}` becomes `''`. |
| CallStackWidget.Reverse | php/Webino/ErrorHandler/Widget/CallStack.php:111 | `krsort` on the renumbered list: element i of the result is element `n-1-i` of the input. |
| CallStackWidget.ReverseAppend | php/Webino/ErrorHandler/Widget/CallStack.php:111 | Reversal turns a concatenation around. |
| CallStackWidget.DropInternal | php/Webino/ErrorHandler/Widget/CallStack.php:113-121 | A frame is kept iff its file does not contain `Webino/Resource/Errors`, `Webino/ErrorHandler` or `QueryPath/`; a frame without a file is kept. |
| CallStackWidget.DropInternalAppend | php/Webino/ErrorHandler/Widget/CallStack.php:113-121 | Removing internal frames keeps the others in their order. |
| CallStackWidget.FallbackFrames | php/Webino/ErrorHandler/Widget/CallStack.php:108-121 | The captured stack loses its first frame and its internal frames, and nothing else: a frame is shown iff it is a non-internal frame after the first. |
| CallStackWidget.FallbackOutermostFirst | php/Webino/ErrorHandler/Widget/CallStack.php:110-121 | Outermost caller first: for a capture `probe, a, b`, the kept frames of `b` come before those of `a`, each reversed. |
| CallStackWidget.Preprocess | php/Webino/ErrorHandler/Widget/CallStack.php:95-128 | The application path is recorded. The frames are the exception's trace unmodified, or the fallback frames when the stack function exists. With neither, the widget is suppressed. With a frame source, it is suppressed iff the list is empty. |
| CallStackWidget.PostprocessOnlyFillsPlaceholders | php/Webino/ErrorHandler/Widget/CallStack.php:137-142 | The page is its placeholder-free pieces joined by `{CALLSTACK}`. The result is the same pieces joined by the rendered stack. |
| CallStackWidget.PostprocessWithoutPlaceholder | php/Webino/ErrorHandler/Widget/CallStack.php:137-142 | A page without `{CALLSTACK}` is returned unchanged. |
| CallStackWidget.Signature | php/Webino/ErrorHandler/Widget/CallStack.php:172-188 | Without a class, the function name or nothing. With a class, exactly the class, the call type (`->` when unset) and the function name (empty when unset). |
| CallStackWidget.ArgTexts | php/Webino/ErrorHandler/Widget/CallStack.php:199-207 | One text per argument, in order; objects shown by class name. |
| CallStackWidget.CallMarkup | php/Webino/ErrorHandler/Widget/CallStack.php:190-216 | Without arguments, the call ends `signature()`. With arguments, it opens with the signature and its argument toggle, and closes the argument table. |
| CallStackWidget.Entries | php/Webino/ErrorHandler/Widget/CallStack.php:151-228 | One entry per frame, in frame order, numbered consecutively. Each carries its frame's signature and its arguments (none when unset). It has a source excerpt iff the frame has a file. |
| CallStackWidget.GetCallStack | php/Webino/ErrorHandler/Widget/CallStack.php:149-233 | Returns the placeholder and stores the rendered stack in the widget, so that the widget's own `postprocess` turns the returned placeholder into that stack. Trace and error data are unchanged. |
| CallStackWidget.StackMarkup | php/Webino/ErrorHandler/Widget/CallStack.php:151-230 | Closed by `</ul>`. An empty trace gives `</ul>` alone; otherwise the markup opens with the first entry, numbered 1 (`$lineIndex = 1`). |
| DevBarWidget.Preprocess | php/Webino/ErrorHandler/Widget/DevBar.php:140-148 | Never suppressed. Records the `script` option. The application time is the value of the constant the `appTimeConstant` option names, and null when the option is unset or names no defined constant. |
| DevBarWidget.SetRequest | php/Webino/ErrorHandler/Widget/DevBar.php:233-238 | The request is replaced and nothing else changes. |
| DevBarWidget.Postprocess | php/Webino/ErrorHandler/Widget/DevBar.php:157-173 | Without a request, or without `</body>`, the page is unchanged. Otherwise the result holds the fragment followed by `</body>`. |
| DevBarWidget.PostprocessInsertsBeforeBodyClose | php/Webino/ErrorHandler/Widget/DevBar.php:164-172 | With a request, the page is its pieces joined by `</body>`. The result is the same pieces joined by the fragment plus `</body>`. |
| DevBarWidget.PostprocessWithoutBodyClose | php/Webino/ErrorHandler/Widget/DevBar.php:164-172 | A page without `</body>` is unchanged. |
| DevBarWidget.GetMemoryPeak | php/Webino/ErrorHandler/Widget/DevBar.php:180-191 | Uses the `memoryPeak` option, else the current peak, which is then stored; nothing else of the bar changes. The text ends ` MB` and reads back as bytes/1048576 rounded to two decimals. |
| DevBarWidget.GetExecutionTime | php/Webino/ErrorHandler/Widget/DevBar.php:198-210 | Uses the `applicationStopTime` option, else now, which is then stored; nothing else of the bar changes. The text ends ` ms` and reads back as (stop - start) in ms rounded to two decimals. |
| DevBarWidget.MetricsAreStable | php/Webino/ErrorHandler/Widget/DevBar.php:180-210 | Because the sample is stored, asking again later gives the same figures. |
| DevBarWidget.GetModuleControllerAction | php/Webino/ErrorHandler/Widget/DevBar.php:217-224 | `module : controller : action`, present exactly when a request is set. |
| DevBarWidget.MemoryPeakExample | php/Webino/ErrorHandler/Widget/DevBar.php:176-190 | 6815744 bytes are shown as `6.5 MB`. |
| DevBarWidget.ExecutionTimeExample | php/Webino/ErrorHandler/Widget/DevBar.php:194-209 | 75260 microseconds are shown as `75.26 ms`. |
| Compositor.ComposeAndBind | php/Webino/ErrorHandler/Renderer.php:205-215 | Succeeds iff both template stages succeed; the result is stage 2 applied to stage 1's output. |
| Compositor.AppendHead | php/Webino/ErrorHandler/Renderer.php:218-235 | The new elements follow the existing head children, in order; title and body are untouched. |
| Compositor.SetTitle | php/Webino/ErrorHandler/Renderer.php:238 | The title text is set when a title element exists; otherwise nothing changes. |
| Renderer.RenderWidgets | php/Webino/ErrorHandler/Renderer.php:161-180 | Widgets without a script give nothing; a single widget gives its fragment's body. |
| Renderer.RenderWidgetsAppend | php/Webino/ErrorHandler/Renderer.php:161-180 | The fragments are concatenated in list order. |
| Renderer.ScriptlessWidgetSkipped | php/Webino/ErrorHandler/Renderer.php:164-169 | A widget without a script contributes nothing wherever it stands. |
| Renderer.BindWidgets | php/Webino/ErrorHandler/Renderer.php:161-180 | Binding each widget with a script into its fragment leaves the list's length, order and scripts. A widget without a script is untouched; one with a script has had the getters its fragment calls applied to it. |
| Renderer.ScriptMap | php/Webino/ErrorHandler/Renderer.php:192-202 | Each script name maps to one fragment: the file's contents when it names a file, else the literal text. |
| Renderer.Stylesheets | php/Webino/ErrorHandler/Renderer.php:228-230 | One stylesheet link per entry, in order. |
| Renderer.Scripts | php/Webino/ErrorHandler/Renderer.php:233-235 | One script element per entry, in order. |
| Renderer.HeadAssets | php/Webino/ErrorHandler/Renderer.php:218-235 | The favicon link first (a link with empty attributes without a favicon), then every stylesheet entry, then every javascript entry, none skipped. |
| Renderer.Page | php/Webino/ErrorHandler/Renderer.php:217-238 | The head gains exactly the assets after its existing children. The title is the handler's when the layout has one. |
| Renderer.Render | php/Webino/ErrorHandler/Renderer.php:190-242 | `null` iff either stage throws; otherwise doctype, end of line and the serialised page. |
| ErrorHandler.GetErrorTitle | php/Webino/ErrorHandler.php:612-625 | The configured title for the code, else `Error`. The result is HTML-escaped: it unescapes to the title, holds no `<`, `>` or `"`, and every `&` in it opens one of the four entities. |
| ErrorHandler.ErrorTitleIsEscapedTitle | php/Webino/ErrorHandler.php:618-624 | With a configured title, the result is exactly `htmlspecialchars` of it. |
| ErrorHandler.GetErrorNote | php/Webino/ErrorHandler.php:654-662 | Empty iff there is no exception, else the exception class in brackets. |
| ErrorHandler.GetTitle | php/Webino/ErrorHandler.php:767-777 | Starts with the first 40 characters of the stripped message (all of a shorter one) and the literal ellipsis separator. Ends with the upper-cased error title and the product name suffix. |
| ErrorHandler.TitleExample | php/Webino/ErrorHandler.php:767-777 | A 36-character message is shown whole; `Fatal error` becomes `FATAL ERROR`. |
| ErrorHandler.LongTitleExample | php/Webino/ErrorHandler.php:767-777 | A longer message is cut to 40 characters. |
| ErrorHandler.UpperCaseExample | php/Webino/ErrorHandler.php:773-775 | `strtoupper` of the two titles used in the examples. |
| ErrorHandler.GetErrorFileCode | php/Webino/ErrorHandler.php:790-807 | The highlighted excerpt with every `&nbsp;` wrapped in CDATA and nothing else changed. |
| ErrorHandler.ProtectSpaces | php/Webino/ErrorHandler.php:792-794 | The `&nbsp;` replacement rejoins the same pieces; an excerpt without `&nbsp;` is unchanged. |
| ErrorHandler.Instantiate | php/Webino/ErrorHandler.php:504-549 | A given instance is used as it is. A class name that does not exist, or names a class not implementing the widget interface, raises the handler exception. A loadable widget class always succeeds and, without injection, gives a new widget of that class carrying the handler's error fields. |
| ErrorHandler.Step | php/Webino/ErrorHandler.php:504-566 | One entry fails iff its instantiation fails. Otherwise its suppression and its active widget are exactly what the widget's `preprocess` gives with the entry's options, and the entry keeps its configured script. |
| ErrorHandler.ProcessWidgets | php/Webino/ErrorHandler.php:502-567 | No more active widgets than entries; no error iff every entry instantiates. |
| ErrorHandler.ProcessAppend | php/Webino/ErrorHandler.php:502-567 | The entries are processed one after the other, in configuration order. |
| ErrorHandler.SuppressedWidgetLeavesNoTrace | php/Webino/ErrorHandler.php:561-566 | A widget whose `preprocess` returns true is left out as if it were not configured. |
| ErrorHandler.FailFast | php/Webino/ErrorHandler.php:506-538 | The first failing entry raises the exception; no later entry is processed, and earlier widgets stay active. |
| ErrorHandler.AllAccepted | php/Webino/ErrorHandler.php:502-567 | When no entry fails or suppresses itself, every entry becomes active in configuration order. |
| ErrorHandler.GetWidgets | php/Webino/ErrorHandler.php:495-571 | Without a `widgets` option, returns `''` and changes nothing. Otherwise the active list is reset to the accepted widgets. On success they are returned rendered and kept in the state their fragments' getter calls left them in; on failure the exception is raised. |
| ErrorHandler.CallStackReachesPostprocess | php/Webino/ErrorHandler.php:495-567 | An accepted call-stack widget whose fragment calls `getCallStack` is kept bound, so its later `postprocess` (CallStack.php:137-142) puts the rendered stack in place of `{CALLSTACK}`. |
| ErrorHandler.PostprocessAll | php/Webino/ErrorHandler.php:358-365 | With no active widget the page is unchanged. |
| ErrorHandler.PostprocessAllAppend | php/Webino/ErrorHandler.php:358-365 | The `postprocess` calls run in list order, each on the previous output. |
| ErrorHandler.LastWidgetSeesEarlierOutput | php/Webino/ErrorHandler.php:358-365 | The last widget's `postprocess` receives what all earlier ones produced. |
| ErrorHandler.DefaultWidgetsKeepPage | php/Webino/ErrorHandler.php:358-365 | Widgets with the default `postprocess` leave the page as rendered. |
| ErrorHandler.BoundPage | php/Webino/ErrorHandler/Renderer.php:205-215 | A widget failure while the layout is bound makes the rendered page `null`. On success the page is the renderer's output over the bound widgets, and it starts with the doctype and end of line when both stages succeed. |
| ErrorHandler.RenderPage | php/Webino/ErrorHandler.php:353-369 | Disabled: the page stays `''`. Otherwise the renderer's output goes through every active widget's `postprocess` in order, the widgets as the layout binding left them. The recorded error is untouched. |
| ErrorHandler.Closing | php/Webino/ErrorHandler.php:378-401 | The page is written iff `writeFunction` is non-empty, and terminated iff `terminator` is non-empty, write first. |
| ErrorHandler.WriteError | php/Webino/ErrorHandler.php:414-444 | `errorStartUp` gets the stripped message and the resolved location, and the handler keeps what the listeners leave. The handler and the page handed to `errorShutDown` are exactly what rendering that handler gives. The page is what `errorShutDown` leaves; it is empty before that when disabled. Then come write and terminate. |
| ErrorHandler.EventOrder | php/Webino/ErrorHandler.php:427-443 | Start-up is the first event and shut-down the second, each exactly once. A write precedes termination, and each happens iff configured. |
| ErrorsPlugin.Contents | php/Webino/ControllerPlugin/Errors.php:263-267 | Each entry becomes its file's contents when it names a file, else itself, in order. |
| ErrorsPlugin.ScriptBlocks | php/Webino/ControllerPlugin/Errors.php:251-272 | No blocks without groups; every block has at least one fragment. |
| ErrorsPlugin.ScriptBlocksPerGroup | php/Webino/ControllerPlugin/Errors.php:260-269 | With every group non-empty, one block per group in order, holding the group's contents. |
| ErrorsPlugin.EmptyGroupDropped | php/Webino/ControllerPlugin/Errors.php:263-268 | A group without entries gets no key, wherever it stands. |
| ErrorsPlugin.BindingFor | php/Webino/ControllerPlugin/Errors.php:281-289 | Binds the plugin itself iff `data` is empty, else the data. |
| ErrorsPlugin.NonEmpty | php/Webino/ControllerPlugin/Errors.php:332-338 | An entry is kept iff it is not `empty()`; nothing is dropped when all are non-empty. |
| ErrorsPlugin.NonEmptyAppend | php/Webino/ControllerPlugin/Errors.php:332-338 | Skipping empty entries keeps the order of the rest. |
| ErrorsPlugin.HeadAssets | php/Webino/ControllerPlugin/Errors.php:298-368 | The favicon only when configured, then the non-empty stylesheets, then the non-empty javascripts, in order. |
| ErrorsPlugin.FaviconOnlyWhenConfigured | php/Webino/ControllerPlugin/Errors.php:298-316 | No favicon link is appended unless a favicon is configured. |
| ErrorsPlugin.Page | php/Webino/ControllerPlugin/Errors.php:377-389 | The head gains the assets. The title is replaced only when the option is non-empty and the layout has a title. |
| ErrorsPlugin.AgreesWithHandlerRenderer | php/Webino/ControllerPlugin/Errors.php:298-368 | With a favicon and no empty entry, the plugin appends exactly what the handler's renderer appends. |
| ErrorsPlugin.DiffersOnEmptyEntries | php/Webino/ControllerPlugin/Errors.php:325-342 | An empty stylesheet entry and a missing favicon are skipped here but appended by the handler's renderer. |
| ErrorsPlugin.DispatchLoopShutdown | php/Webino/ControllerPlugin/Errors.php:190-242 | No exception: false and no event. Otherwise `applicationError` fires first. A 404 with one exception gives false. A failing stage gives null. Otherwise the response becomes 500 with doctype, end of line and page, and true. |
| ErrorsPlugin.NotFoundWithSeveralExceptionsIsRendered | php/Webino/ControllerPlugin/Errors.php:201-205 | A 404 carrying several exceptions is not declined. |
| DevBarPlugin.FreshDevBar | php/Webino/ControllerPlugin/DevBar.php:95-105 | The new bar has no error fields, and the stop time and memory peak sampled now. |
| DevBarPlugin.GetDevBar | php/Webino/ControllerPlugin/DevBar.php:93-108 | The cached bar, or a new one that is then cached. |
| DevBarPlugin.BuiltOnce | php/Webino/ControllerPlugin/DevBar.php:93-108 | Asking again, even later, gives the same bar and leaves the plugin as it was. |
| DevBarPlugin.SetDevBar | php/Webino/ControllerPlugin/DevBar.php:117-122 | Replaces the cached bar only. |
| DevBarPlugin.SetThenGet | php/Webino/ControllerPlugin/DevBar.php:117-122 | A bar that was set is the one returned. |
| DevBarPlugin.Summary | php/Webino/ControllerPlugin/DevBar.php:133-137 | Each of the three figures loses every space; they are joined by a space, then by a space-bar-space separator. |
| DevBarPlugin.GetOverallPerformance | php/Webino/ControllerPlugin/DevBar.php:129-138 | Summarises the bar's execution time, memory peak and route; the bar keeps the figures it sampled. |
| DevBarPlugin.SummaryShape | php/Webino/ControllerPlugin/DevBar.php:133-137 | Space-free figures and names give the two figures glued to their units, then the route as `<m>:<c>:<a>`. |
| DevBarPlugin.OverallPerformanceShape | php/Webino/ControllerPlugin/DevBar.php:129-138 | The summary is the two printed figures glued to `ms` and `MB`, then the route without spaces. |
| DevBarPlugin.FigureWithoutSpace | php/Webino/ControllerPlugin/DevBar.php:133-134 | A figure `<number> <unit>` loses only its inner space. |
| DevBarPlugin.RouteWithoutSpaces | php/Webino/ControllerPlugin/DevBar.php:135-137 | The route loses only the spaces around its separators. |
| DevBarPlugin.DispatchLoopShutdown | php/Webino/ControllerPlugin/DevBar.php:143-153 | The bar gets the request and the plugin's `script` option, and its application time from the constant `appTimeConstant` names (null without one). The body is its pieces joined by `</body>`, and becomes the same pieces joined by the bar plus `</body>`; a body without `</body>` is unchanged. |
| DevBarPlugin.BarInsertion | php/Webino/ControllerPlugin/DevBar.php:148-152 | The bar's `postprocess` on the response body inserts the bar before every `</body>` and changes nothing else. |
| ErrorController.ErrorAction | php/Webino/ErrorController.php:62-84 | A missing parameter defaults to no exception and "no action". `actionError` fires first. Routing failures set 404 and fire `pageNotFound`. Other errors leave the code and fire nothing else. |
| ErrorController.NotFoundIffAnnounced | php/Webino/ErrorController.php:74-83 | Starting from another code, the response becomes 404 iff `pageNotFound` fires. |
| ErrorController.MissingParameterIsNotFound | php/Webino/ErrorController.php:64-68 | Without an errors object, the outcome is a 404 with both events. |
| Text.ReplaceAllJoinsPieces | php/Webino/ErrorHandler/Widget/CallStack.php:139-141 | `str_replace` keeps the pieces between occurrences and swaps only the separators. |
| Text.SplitJoinRoundTrip | php/Webino/ErrorHandler/Widget/CallStack.php:139-141 | Splitting at a needle and rejoining with it gives the string back. |
| Text.ReplaceAllAbsent | php/Webino/ErrorHandler/Widget/CallStack.php:139-141 | A string without the needle is unchanged by `str_replace`. |
| Text.ReplaceAllInserts | php/Webino/ErrorHandler/Widget/DevBar.php:166-172 | A string holding the needle holds the replacement afterwards. |
| Text.RemoveSpaces | php/Webino/ControllerPlugin/DevBar.php:133-137 | `str_replace(' ', '', s)` is `s` with every space dropped. |
| Text.Head | php/Webino/ErrorHandler.php:771-773 | `substr(s, 0, 40)`: a prefix of `s` of length 40, or all of a shorter `s`. |
| Text.ToUpper | php/Webino/ErrorHandler.php:773-775 | `strtoupper`: same length; lower-case ASCII letters are raised, everything else is kept. |
| Text.EscapeRoundTrip | php/Webino/ErrorHandler.php:624 | `htmlspecialchars` is undone by decoding its four entities. |
| Text.EscapeIsEscaped | php/Webino/ErrorHandler.php:624 | `htmlspecialchars` output has no `<`, `>` or `"`, and every `&` in it opens an entity. |
| Text.EscapedUnique | php/Webino/ErrorHandler.php:624 | Escaped text is the `htmlspecialchars` of what it decodes to. |
| Numbers.RoundDiv | php/Webino/ErrorHandler/Widget/DevBar.php:187-190 | `round()`: the nearest integer to the quotient, halves away from zero. |
| Numbers.RoundDivUnique | php/Webino/ErrorHandler/Widget/DevBar.php:187-190 | At most one integer satisfies that rounding contract. |
| Numbers.FormatRoundTrip | php/Webino/ErrorHandler/Widget/DevBar.php:187-190 | The printed two-decimal figure reads back as the same number of hundredths. |

## Left out

- I/O and the host are parameters: file reads (`is_file`, `file_get_contents`), `strip_tags`, `Highlight::php`, `dirname`/`basename`, `constant()`, `microtime`, `memory_get_peak_usage`, `function_exists` and the stack-capture call. They are fields of `Host`, left uninterpreted.
- The `errorFileCode` callback's `from`/`to` window is not modelled. The highlighter is a function of file and line only.
- QueryPath's parsing, binding, `find`/`innerHTML` and `saveHTML` are not modelled. They are the `Engine` oracle over an abstract `Document` (its head children, its title, and the rest as opaque text). A widget's fragment body is `Host.widgetBody`.
- The error log (`error_log`, `setLog`), the event bus wiring (`setEvents`), the dependency injector (`setDependency`, `setDependencyResource`) and the renderer constructor are not modelled. These are plumbing. Listeners are a function on the values they are handed, and injection is `Host.inject`.
- Accessors that read the clock, `$_SERVER`, `PHP_VERSION`, the Webino version or a URL constant are not modelled: `getErrorGeneratedTime`, `getErrorPageUrl`, `getPHPVersion`, `getServerInfo`, `getWebinoVersion`, `getCurrentYear`. `getErrorCode`, `getErrorMessage`, `getErrorFile` and `getErrorLine` appear only as the escaped fields of `Renderer.View`.
- The hook registration, log listeners and profiler plugin that call into this core are not part of this model.
- `eval` of the terminator and `call_user_func` of the write function are recorded as the `Terminated` and `Written` events. Their effects are not modelled.
- Floating point is not modelled. Times are integer microseconds and sizes integer bytes. `round(x, 2)` and its printing work in exact hundredths. PHP's 14-digit float precision and exponent notation for huge values are not modelled.
- PHP arrays with string keys are sequences of pairs. Duplicate keys, which PHP would merge, are not modelled.
- ErrorHandler.RenderPage: the layout is assumed to read the handler's widgets exactly once, and only after stage 1 succeeds. A widget failure during binding is the renderer's `null` result, and `null` html is modelled as the empty string.
- ErrorHandler.Initial: a new handler's error code is `0` rather than PHP's `null`; nothing before the first `writeError` reads it.
- DevBarWidget.GetModuleControllerAction: without a request PHP calls a method on `null` and fails fatally. The model returns `None`, and `DevBarPlugin.GetOverallPerformance` returns no summary in that case.
- DevBarPlugin.GetDevBar: requires (`Ready`) that the `object` option names a loadable developer-bar class. PHP would fail fatally otherwise.
- DevBarPlugin.DispatchLoopShutdown: the request is always present; the `null` request PHP's setter would accept is not modelled.
- WidgetBase.DefaultPreprocess and WidgetBase.DefaultPostprocess carry no contract of their own. Their behaviour is stated through `Widgets.Preprocess` and `Widgets.Postprocess`.
- CallStackWidget.Postprocess and ErrorHandler.MakeView carry no contract of their own. The first is stated by the two placeholder lemmas. The second is a record of the accessors, each stated on its own.
- Text.Head: `string` stands for PHP's byte string, so the 40-unit cut of `substr` counts bytes only for single-byte text; multibyte UTF-8 messages, which PHP may cut inside a character, are not modelled.
- ErrorHandler.GetTitle: the 40-character cut inherits that simplification from `Text.Head`.
- Widgets.Call: the getters of a custom widget class have no modelled effect on its state.
- DevBarWidget.Postprocess: returns the page only. The samples that its template's `getMemoryPeak` and `getExecutionTime` calls store on the bar are not kept in the model's widget; the bar the developer-bar plugin builds already carries both samples, so for it nothing is lost.
- Text.Escape models `htmlspecialchars` with its default flags: `&`, `"`, `<`, `>` only, no single quote, no double-encoding check.
- Text.ToUpper models `strtoupper` in the "C" locale (ASCII only).
