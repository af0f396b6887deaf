/** The data model of the error pipeline: exceptions and their call-stack
    frames, the handler's configuration, the widgets built from it, and the
    host environment the pipeline consults.

    These types refer to each other in a cycle (the options list widget
    instances; a widget keeps the options it was built with), so they are
    declared together. */
module Types {
  import opened Wrappers

  // ---------------------------------------------------------------------
  // Exceptions and call-stack frames
  // ---------------------------------------------------------------------

  /** One argument recorded in a stack frame: a scalar shown by its text, or
      an object shown by its class name only. */
  datatype Arg = Scalar(text: string) | Object(className: string)

  /** One entry of a PHP backtrace; every key is optional. */
  datatype Frame = Frame(
    file: Option<string>,
    line: Option<int>,
    functionName: Option<string>,
    className: Option<string>,
    callType: Option<string>,
    args: Option<seq<Arg>>
  )

  /** A thrown exception: its concrete class, throw site, captured trace and
      optional cause. */
  datatype Exception = Exception(
    className: string,
    file: string,
    line: int,
    trace: seq<Frame>,
    previous: Option<Exception>
  )

  /** The reported error location. */
  datatype Location = Location(file: string, line: Option<int>)

  // ---------------------------------------------------------------------
  // Configuration
  // ---------------------------------------------------------------------

  datatype Favicon = Favicon(mimeType: string, href: string)

  /** The options the internal renderer reads. `scripts` pairs a block name
      with a file path or literal markup. */
  datatype RenderOptions = RenderOptions(
    doctype: string,
    layout: string,
    scripts: seq<(string, string)>,
    favicon: Option<Favicon>,
    stylesheets: seq<string>,
    javascripts: seq<string>
  )

  /** The handler's options. A string option that PHP would treat as `empty()`
      is unset; `widgets` is `None` when the key is absent. */
  datatype Options = Options(
    disable: bool,
    writeFunction: string,
    terminator: string,
    errorTitle: map<int, string>,
    exceptionTraceIndex: map<string, int>,
    widgets: Option<seq<WidgetConfig>>,
    render: RenderOptions,
    memoryPeak: Option<int>,
    applicationStopTime: Option<int>
  )

  /** One `widgets.<name>` entry: the widget (a class name to instantiate or a
      ready instance), its fragment template, its own options and an optional
      dependency-injection spec. */
  datatype WidgetConfig = WidgetConfig(
    widgetRef: WidgetRef,
    script: Option<string>,
    options: Option<map<string, string>>,
    inject: Option<string>
  )

  datatype WidgetRef = ClassName(name: string) | Instance(widget: Widget)

  // ---------------------------------------------------------------------
  // Widgets
  // ---------------------------------------------------------------------

  /** What every widget is constructed with. */
  datatype ErrorData = ErrorData(
    code: Option<int>,
    message: Option<string>,
    file: Option<string>,
    line: Option<int>,
    context: map<string, string>,
    options: Options,
    exception: Option<Exception>
  )

  /** The router names the developer bar reports. */
  datatype Request = Request(moduleName: string, controllerName: string, actionName: string)

  /** A widget object and its state. `Plain` is a class that keeps both
      defaults of the abstract base; `Custom` is any other class implementing
      the widget interface, described by what its two hooks do. */
  datatype Widget =
    | Plain(data: ErrorData)
    | CallStack(data: ErrorData, trace: seq<Frame>, callStack: string, applicationPath: Option<string>)
    | DevBar(data: ErrorData, script: Option<string>, request: Option<Request>, applicationTime: Option<int>)
    | Custom(data: ErrorData, suppress: map<string, string> -> bool, decorate: string -> string)

  datatype WidgetKind =
    | PlainKind
    | CallStackKind
    | DevBarKind
    | CustomKind(suppress: map<string, string> -> bool, decorate: string -> string)

  /** The widget getters that change the widget's state when a fragment
      template calls them during binding: `getCallStack` stores the stack
      markup, `getMemoryPeak` and `getExecutionTime` store the sampled
      figure as an option. */
  datatype Accessor = CallStackAccessor | MemoryPeakAccessor | ExecutionTimeAccessor

  /** A loadable class: whether it implements the widget interface, and
      which widget it builds. */
  datatype WidgetClass = WidgetClass(isWidget: bool, kind: WidgetKind)

  // ---------------------------------------------------------------------
  // The host environment
  // ---------------------------------------------------------------------

  /** Everything outside the pipeline's own logic, as values: `strip_tags`,
      the readable files, the loadable classes, the callable stack-capture
      functions, the defined constants (timestamps in microseconds), the
      clock, the memory-peak counter, the dependency injector, QueryPath's
      rendering of a widget's fragment template and the state-changing
      getters that template calls on the widget, in order, `dirname`,
      `basename` and the source highlighter. */
  datatype Host = Host(
    stripTags: string -> string,
    files: map<string, string>,
    classes: map<string, WidgetClass>,
    stackFunctions: map<string, seq<Frame>>,
    constants: map<string, int>,
    clock: int,
    memoryPeak: nat,
    inject: (Widget, string) -> Widget,
    widgetBody: (Option<string>, Widget) -> string,
    templateCalls: string -> seq<Accessor>,
    dirname: string -> string,
    basename: string -> string,
    highlight: (string, Option<int>) -> string
  )

  /** `is_file($s) ? file_get_contents($s) : $s`. */
  function ReadOrLiteral(files: map<string, string>, s: string): string {
    if s in files then files[s] else s
  }

  /** Options with every key unset. */
  const NoRenderOptions := RenderOptions("", "", [], None, [], [])
  const NoOptions := Options(false, "", "", map[], map[], None, NoRenderOptions, None, None)
}
