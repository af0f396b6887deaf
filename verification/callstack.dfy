/** The call-stack widget (`Webino_ErrorHandler_Widget_CallStack`): picks the
    frames to show, suppresses itself when there are none, renders one list
    entry per frame and substitutes the result for a placeholder. */
module CallStackWidget {
  import opened Wrappers
  import opened Types
  import opened Text
  import Numbers
  import WidgetBase

  const Placeholder := "{CALLSTACK}"
  const ApplicationPathKey := "applicationPath"
  const StackFunctionKey := "stackFunction"

  /** Frames from the error machinery itself, which the fallback path hides. */
  predicate IsInternal(f: Frame) {
    && f.file.Some?
    && (Contains(f.file.value, "Webino/Resource/Errors")
        || Contains(f.file.value, "Webino/ErrorHandler")
        || Contains(f.file.value, "QueryPath/"))
  }

  function Reverse<T>(s: seq<T>): (r: seq<T>)
    ensures |r| == |s|
    ensures forall i :: 0 <= i < |s| ==> r[i] == s[|s| - 1 - i]
  {
    if |s| == 0 then [] else Reverse(s[1..]) + [s[0]]
  }

  /** The frames that are not internal, in their original order. */
  function DropInternal(frames: seq<Frame>): (r: seq<Frame>)
    ensures |r| <= |frames|
    ensures forall f :: f in r <==> f in frames && !IsInternal(f)
  {
    if |frames| == 0 then []
    else (if IsInternal(frames[0]) then [] else [frames[0]]) + DropInternal(frames[1..])
  }

  /** Filtering distributes over concatenation, so kept frames keep their
      relative order. */
  lemma {:induction false} DropInternalAppend(a: seq<Frame>, b: seq<Frame>)
    ensures DropInternal(a + b) == DropInternal(a) + DropInternal(b)
    decreases |a|
  {
    if |a| > 0 {
      assert (a + b)[0] == a[0] && (a + b)[1..] == a[1..] + b;
      DropInternalAppend(a[1..], b);
      var kept := if IsInternal(a[0]) then [] else [a[0]];
      var rest, tail := DropInternal(a[1..]), DropInternal(b);
      assert DropInternal(a + b) == kept + (rest + tail);
      assert DropInternal(a) == kept + rest;
      assert kept + (rest + tail) == (kept + rest) + tail;
    } else {
      assert a + b == b;
    }
  }

  /** The frames of the fallback path: the captured stack minus its first
      entry (the capture call itself), outermost caller first, internal
      frames removed. */
  function FallbackFrames(captured: seq<Frame>): (r: seq<Frame>)
    ensures |r| < |captured| || |captured| == 0
    ensures forall f :: f in r <==> |captured| > 0 && f in captured[1..] && !IsInternal(f)
  {
    var callers := if |captured| == 0 then [] else captured[1..];
    assert forall f :: f in Reverse(callers) <==> f in callers by {
      forall f | f in callers ensures f in Reverse(callers) {
        var i :| 0 <= i < |callers| && callers[i] == f;
        assert Reverse(callers)[|callers| - 1 - i] == f;
      }
    }
    DropInternal(Reverse(callers))
  }

  lemma {:induction false} ReverseAppend<T>(a: seq<T>, b: seq<T>)
    ensures Reverse(a + b) == Reverse(b) + Reverse(a)
    decreases |a|
  {
    if |a| == 0 {
      assert a + b == b;
      assert Reverse(b) + [] == Reverse(b);
    } else {
      assert (a + b)[0] == a[0];
      assert (a + b)[1..] == a[1..] + b;
      ReverseAppend(a[1..], b);
    }
  }

  /** Later frames come first: for a capture `probe, a, b`, the frames
      kept from `b` precede those kept from `a`, each group reversed. */
  lemma FallbackOutermostFirst(probe: Frame, a: seq<Frame>, b: seq<Frame>)
    ensures FallbackFrames([probe] + a + b) == DropInternal(Reverse(b)) + DropInternal(Reverse(a))
  {
    assert ([probe] + a + b)[1..] == a + b;
    ReverseAppend(a, b);
    DropInternalAppend(Reverse(b), Reverse(a));
  }

  /** Where the frames come from: the exception's own trace, else the
      configured stack-capture function if it exists, else nowhere. */
  function FrameSource(exception: Option<Exception>, options: map<string, string>, host: Host): Option<seq<Frame>> {
    if exception.Some? then Some(exception.value.trace)
    else if StackFunctionKey in options && options[StackFunctionKey] in host.stackFunctions then
      Some(FallbackFrames(host.stackFunctions[options[StackFunctionKey]]))
    else None
  }

  /** `preprocess`: records the application path and the frames, and reports
      whether the widget is suppressed. */
  function Preprocess(w: Widget, options: map<string, string>, host: Host): (r: (bool, Widget))
    requires w.CallStack?
    ensures r.1.CallStack? && r.1.data == w.data && r.1.callStack == w.callStack
    ensures r.1.applicationPath == WidgetBase.Lookup(options, ApplicationPathKey)
    ensures w.data.exception.Some? ==> r.1.trace == w.data.exception.value.trace
    ensures w.data.exception.None? && FrameSource(None, options, host).None? ==> r.0
    ensures w.data.exception.None? && FrameSource(None, options, host).Some? ==>
              r.1.trace == FallbackFrames(host.stackFunctions[options[StackFunctionKey]])
    ensures FrameSource(w.data.exception, options, host).Some? ==> (r.0 <==> |r.1.trace| == 0)
  {
    var w1 := w.(applicationPath := WidgetBase.Lookup(options, ApplicationPathKey));
    match FrameSource(w.data.exception, options, host)
    case None => (true, w1)
    case Some(t) => (|t| == 0, w1.(trace := t))
  }

  /** `postprocess`: every placeholder is replaced by the rendered stack. */
  function Postprocess(w: Widget, html: string): string
    requires w.CallStack?
  {
    ReplaceAll(html, Placeholder, w.callStack)
  }

  /** A page without the placeholder is left as it is. */
  lemma PostprocessWithoutPlaceholder(w: Widget, html: string)
    requires w.CallStack? && !Contains(html, Placeholder)
    ensures Postprocess(w, html) == html
  {
    ReplaceAllAbsent(html, Placeholder, w.callStack);
  }

  /** Only the placeholders change: the page is the same pieces glued with
      the placeholder before and with the stack markup after. */
  lemma PostprocessOnlyFillsPlaceholders(w: Widget, html: string)
    requires w.CallStack?
    ensures var pieces := Split(html, Placeholder);
            && html == Join(pieces, Placeholder)
            && Postprocess(w, html) == Join(pieces, w.callStack)
            && forall k :: 0 <= k < |pieces| ==> !Contains(pieces[k], Placeholder)
  {
    SplitJoinRoundTrip(html, Placeholder);
    ReplaceAllJoinsPieces(html, Placeholder, w.callStack);
    SplitPiecesFree(html, Placeholder);
  }

  // ---------------------------------------------------------------------
  // Rendering the stack
  // ---------------------------------------------------------------------

  /** The call signature shown for a frame: `Class<type>function`, with `->`
      when the call type is unset, or the bare function name without a
      class. */
  function Signature(f: Frame): (r: string)
    ensures f.className.None? ==> r == f.functionName.GetOr("")
    ensures f.className.Some? ==> r == f.className.value + f.callType.GetOr("->") + f.functionName.GetOr("")
  {
    var fn := f.functionName.GetOr("");
    if f.className.Some? then f.className.value + f.callType.GetOr("->") + fn else fn
  }

  /** How an argument is shown: objects by their class name. */
  function ArgText(a: Arg): string {
    match a
    case Scalar(t) => t
    case Object(c) => c
  }

  function ArgTexts(args: seq<Arg>): (r: seq<string>)
    ensures |r| == |args|
    ensures forall i :: 0 <= i < |args| ==> r[i] == ArgText(args[i])
  {
    seq(|args|, i requires 0 <= i < |args| => ArgText(args[i]))
  }

  /** The pieces of one rendered stack entry. `source` is absent for a
      frame without a file. */
  datatype Entry = Entry(
    index: nat,
    directory: string,
    baseName: string,
    line: string,
    signature: string,
    args: seq<string>,
    source: Option<string>
  )

  /** The file path shown for a frame: relative to the application's parent
      directory, or empty. */
  function ShownPath(f: Frame, applicationPath: Option<string>, host: Host): string {
    if f.file.Some? then ReplaceAll(f.file.value, host.dirname(applicationPath.GetOr("")), ".") else ""
  }

  function MakeEntry(f: Frame, index: nat, applicationPath: Option<string>, host: Host): Entry {
    var path := ShownPath(f, applicationPath, host);
    Entry(
      index,
      host.dirname(path),
      host.basename(path),
      if f.line.Some? then Numbers.IntToDecimal(f.line.value) else "",
      Signature(f),
      if f.args.Some? then ArgTexts(f.args.value) else [],
      if f.file.Some? then Some(host.highlight(f.file.value, f.line)) else None
    )
  }

  /** One entry per frame, in frame order, numbered consecutively from `start`. */
  function Entries(trace: seq<Frame>, start: nat, applicationPath: Option<string>, host: Host): (r: seq<Entry>)
    ensures |r| == |trace|
    ensures forall i :: 0 <= i < |r| ==> r[i].index == start + i
    ensures forall i :: 0 <= i < |r| ==> r[i].signature == Signature(trace[i])
    ensures forall i :: 0 <= i < |r| ==> (trace[i].file.None? <==> r[i].source.None?)
    ensures forall i :: 0 <= i < |r| && trace[i].args.Some? ==> r[i].args == ArgTexts(trace[i].args.value)
    ensures forall i :: 0 <= i < |r| && trace[i].args.None? ==> r[i].args == []
    decreases |trace|
  {
    if |trace| == 0 then []
    else [MakeEntry(trace[0], start, applicationPath, host)] + Entries(trace[1..], start + 1, applicationPath, host)
  }

  function ArgRows(args: seq<string>, index: nat): string
    decreases |args|
  {
    if |args| == 0 then ""
    else "<tr><td>#" + Numbers.NatToDecimal(index) + "</td><td>" + args[0] + "</td></tr>"
         + ArgRows(args[1..], index + 1)
  }

  /** The call column: `signature()` for a call without arguments, else
      the signature with an arguments toggle and one table row per
      argument. */
  function CallMarkup(e: Entry): (r: string)
    ensures |e.args| == 0 ==> EndsWith(r, e.signature + "()</span>")
    ensures |e.args| > 0 ==> StartsWith(r, "<span class=\"side\">" + e.signature + "(") && EndsWith(r, "</table></div>")
  {
    if |e.args| > 0 then
      var open := "<span class=\"side\">" + e.signature + "(";
      var close := "</table></div>";
      var r := open + "<a href=\"#\" class=\"show-args\">arguments <abbr>►</abbr></a>)</span>"
               + "<div class=\"table args\"><table>" + ArgRows(e.args, 0) + close;
      assert r[..|open|] == open;
      assert r[|r| - |close|..] == close;
      r
    else
      var call := e.signature + "()</span>";
      var r := "<span class=\"side\">" + call;
      assert r[|r| - |call|..] == call;
      r
  }

  function EntryMarkup(e: Entry): string {
    "<li>" + Numbers.NatToDecimal(e.index) + ". " + EntryDetails(e)
  }

  /** An entry's markup after its number: location, call and source excerpt. */
  function EntryDetails(e: Entry): string {
    "<em>" + e.directory + "/</em><strong>" + e.baseName
    + "</strong>:" + e.line + " <a href=\"#\" class=\"show-source\">source <abbr>►</abbr></a> "
    + CallMarkup(e)
    + (if e.source.None? then "" else "<div class=\"code source\">" + e.source.value + "</div>")
    + "</li>"
  }

  function Markup(entries: seq<Entry>): string
    decreases |entries|
  {
    if |entries| == 0 then "" else EntryMarkup(entries[0]) + Markup(entries[1..])
  }

  /** The call-stack markup `getCallStack` stores: the entries numbered from
      1, closed by `</ul>`. */
  function StackMarkup(trace: seq<Frame>, applicationPath: Option<string>, host: Host): (r: string)
    ensures EndsWith(r, "</ul>")
    ensures |trace| == 0 ==> r == "</ul>"
    ensures |trace| > 0 ==> StartsWith(r, "<li>1. ")
  {
    var entries := Entries(trace, 1, applicationPath, host);
    var html := Markup(entries) + "</ul>";
    assert html[|html| - 5..] == "</ul>";
    if |trace| > 0 then FirstEntryOpens(entries, "</ul>"); html else html
  }

  /** Markup whose first entry is numbered 1 opens with that number. */
  lemma FirstEntryOpens(entries: seq<Entry>, tail: string)
    requires |entries| > 0 && entries[0].index == 1
    ensures StartsWith(Markup(entries) + tail, "<li>1. ")
  {
    EntryOpens(entries[0]);
    PrefixExtends(EntryMarkup(entries[0]), "<li>1. ", Markup(entries[1..]));
    PrefixExtends(Markup(entries), "<li>1. ", tail);
  }

  /** An entry numbered 1 opens with `<li>1. `. */
  lemma EntryOpens(e: Entry)
    requires e.index == 1
    ensures StartsWith(EntryMarkup(e), "<li>1. ")
  {
    assert Numbers.NatToDecimal(1) == "1";
    assert "<li>" + "1" + ". " == "<li>1. ";
    ConcatEnds("<li>1. ", EntryDetails(e));
  }

  /** `getCallStack`: stores the rendered stack and hands the template the
      placeholder, which `postprocess` later replaces by what was stored. */
  function GetCallStack(w: Widget, host: Host): (r: (string, Widget))
    requires w.CallStack?
    ensures r.0 == Placeholder
    ensures r.1.CallStack? && r.1.data == w.data && r.1.trace == w.trace && r.1.applicationPath == w.applicationPath
    ensures r.1.callStack == StackMarkup(w.trace, w.applicationPath, host)
    ensures Postprocess(r.1, r.0) == r.1.callStack
  {
    var w' := w.(callStack := StackMarkup(w.trace, w.applicationPath, host));
    ReplaceAllWhole(Placeholder, w'.callStack);
    (Placeholder, w')
  }
}
