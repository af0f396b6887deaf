/** The abstract widget base class (`Webino_ErrorHandler_Widget_Abstract`):
    construction from the error data, and the two default hooks. */
module WidgetBase {
  import opened Wrappers
  import opened Types

  /** A per-widget option, `None` when the key is not set. */
  function Lookup(options: map<string, string>, key: string): Option<string> {
    if key in options then Some(options[key]) else None
  }

  /** A freshly constructed widget of the given class: the fields are stored
      as passed (the message is not stripped again) and the exception
      defaults to `null`. */
  function Construct(
    kind: WidgetKind, code: Option<int>, message: Option<string>, file: Option<string>,
    line: Option<int>, context: map<string, string>, options: Options,
    exception: Option<Exception> := None
  ): (w: Widget)
    ensures w.data == ErrorData(code, message, file, line, context, options, exception)
    ensures w.Plain? <==> kind.PlainKind?
    ensures w.CallStack? <==> kind.CallStackKind?
    ensures w.DevBar? <==> kind.DevBarKind?
    ensures w.CallStack? ==> w.trace == [] && w.callStack == "" && w.applicationPath.None?
    ensures w.DevBar? ==> w.script.None? && w.request.None? && w.applicationTime.None?
    ensures kind.CustomKind? ==> w.Custom? && w.suppress == kind.suppress && w.decorate == kind.decorate
  {
    var data := ErrorData(code, message, file, line, context, options, exception);
    match kind
    case PlainKind => Plain(data)
    case CallStackKind => CallStack(data, [], "", None)
    case DevBarKind => DevBar(data, None, None, None)
    case CustomKind(suppress, decorate) => Custom(data, suppress, decorate)
  }

  /** The default `preprocess`: the widget is never suppressed. */
  function DefaultPreprocess(options: map<string, string>): bool {
    false
  }

  /** The default `postprocess`: the page is returned untouched. */
  function DefaultPostprocess(html: string): string {
    html
  }
}
