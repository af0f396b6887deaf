/** How the error handler picks the location it reports for an exception
    (`Webino_ErrorHandler::_traceException`): unwrap one level of cause, seed
    the location from the throw site, and with a configured skip depth adopt
    a frame further out in the trace. */
module TraceResolver {
  import opened Wrappers
  import opened Types
  import Text

  /** The exception the handler reports: the cause when there is one. Only
      one level is unwrapped. */
  function Unwrap(e: Exception): Exception {
    if e.previous.Some? then e.previous.value else e
  }

  /** The frames that carry a `file` key, in trace order. */
  function FileFrames(trace: seq<Frame>): (r: seq<Frame>)
    ensures |r| <= |trace|
    ensures forall i :: 0 <= i < |r| ==> r[i].file.Some?
    ensures forall f :: f in r <==> f in trace && f.file.Some?
    ensures (forall i :: 0 <= i < |trace| ==> trace[i].file.Some?) ==> r == trace
    decreases |trace|
  {
    if |trace| == 0 then []
    else
      assert forall f :: f in trace <==> f == trace[0] || f in trace[1..];
      assert forall i :: 1 <= i < |trace| ==> trace[i] == trace[1..][i - 1];
      if trace[0].file.Some? then
        assert trace == [trace[0]] + trace[1..];
        [trace[0]] + FileFrames(trace[1..])
      else FileFrames(trace[1..])
  }

  /** The file-bearing frames keep their trace order: the selection of a
      concatenation is the concatenation of the selections. */
  lemma {:induction false} FileFramesAppend(a: seq<Frame>, b: seq<Frame>)
    ensures FileFrames(a + b) == FileFrames(a) + FileFrames(b)
    decreases |a|
  {
    if |a| == 0 {
      assert a + b == b;
    } else {
      FileFramesAppend(a[1..], b);
      Text.AppendTail(a, b);
      var kept := if a[0].file.Some? then [a[0]] else [];
      calc {
        FileFrames(a + b);
        { FileFramesUnfold(a + b); }
        kept + FileFrames(a[1..] + b);
        { Text.AppendAssoc(kept, FileFrames(a[1..]), FileFrames(b)); }
        (kept + FileFrames(a[1..])) + FileFrames(b);
        { FileFramesUnfold(a); }
        FileFrames(a) + FileFrames(b);
      }
    }
  }

  /** One step of the selection: the first frame, if it has a file, ahead of
      the rest. */
  lemma FileFramesUnfold(trace: seq<Frame>)
    requires |trace| > 0
    ensures FileFrames(trace) == (if trace[0].file.Some? then [trace[0]] else []) + FileFrames(trace[1..])
  {
    if !trace[0].file.Some? {
      assert [] + FileFrames(trace[1..]) == FileFrames(trace[1..]);
    }
  }

  function FrameLocation(f: Frame): Location
    requires f.file.Some?
  {
    Location(f.file.value, f.line)
  }

  /** The 1-based position, among the file-bearing frames, of the frame a
      nonzero skip depth `d` adopts. */
  function AdoptedPosition(d: int): (k: nat)
    ensures k >= 2
    ensures d >= 2 ==> k == d
  {
    if d <= 2 then 2 else d
  }

  /** Reference description of the walk: the `AdoptedPosition(d)`-th
      file-bearing frame, or `seed` when the trace has fewer. */
  function Representative(trace: seq<Frame>, d: int, seed: Location): Location {
    var ff := FileFrames(trace);
    var k := AdoptedPosition(d);
    if k <= |ff| then FrameLocation(ff[k - 1]) else seed
  }

  /** The `foreach` over the trace exactly as written: `skip` is 0 before the
      first file-bearing frame; that frame sets it to 1 and the trailing
      `$skip++` makes it 2; each later file-bearing frame is adopted once
      `d <= skip`, and otherwise bumps `skip`. */
  function Walk(frames: seq<Frame>, d: int, skip: nat, seed: Location): Location
    decreases |frames|
  {
    if |frames| == 0 then seed
    else if frames[0].file.None? then Walk(frames[1..], d, skip, seed)
    else if skip == 0 then Walk(frames[1..], d, 2, seed)
    else if d <= skip then FrameLocation(frames[0])
    else Walk(frames[1..], d, skip + 1, seed)
  }

  /** Once the first file-bearing frame is behind, the walk adopts the
      file-bearing frame `max(0, d - skip)` places further on. */
  lemma {:induction false} WalkAfterFirst(frames: seq<Frame>, d: int, skip: nat, seed: Location)
    requires skip >= 1
    ensures var ff := FileFrames(frames);
            var j := if d <= skip then 0 else d - skip;
            Walk(frames, d, skip, seed) == (if j < |ff| then FrameLocation(ff[j]) else seed)
    decreases |frames|
  {
    if |frames| > 0 {
      WalkAfterFirst(frames[1..], d, skip, seed);
      WalkAfterFirst(frames[1..], d, skip + 1, seed);
    }
  }

  /** The walk as written computes the reference description. */
  lemma {:induction false} WalkIsRepresentative(frames: seq<Frame>, d: int, seed: Location)
    ensures Walk(frames, d, 0, seed) == Representative(frames, d, seed)
    decreases |frames|
  {
    if |frames| > 0 {
      if frames[0].file.None? {
        WalkIsRepresentative(frames[1..], d, seed);
      } else {
        WalkAfterFirst(frames[1..], d, 2, seed);
      }
    }
  }

  /** The skip depth configured for an exception class; 0 when unset. */
  function SkipDepth(depths: map<string, int>, className: string): int {
    if className in depths then depths[className] else 0
  }

  /** What `_traceException` leaves behind: the reported location and the
      exception the handler keeps (`None` for PHP's `null`). */
  datatype Resolution = Resolution(location: Location, exception: Option<Exception>)

  /** `_traceException`, with `given` the file and line `writeError` was
      called with. */
  function TraceException(exception: Option<Exception>, depths: map<string, int>, given: Location): (r: Resolution)
    ensures exception.None? ==> r == Resolution(given, None)
    ensures exception.Some? ==>
              var u := Unwrap(exception.value);
              var site := Location(u.file, Some(u.line));
              var d := SkipDepth(depths, u.className);
              && r.exception == Some(u)
              && (d == 0 ==> r.location == site)
              && (d != 0 ==> r.location == Representative(u.trace, d, site))
  {
    match exception
    case None => Resolution(given, None)
    case Some(e) =>
      var u := Unwrap(e);
      var site := Location(u.file, Some(u.line));
      var d := SkipDepth(depths, u.className);
      if d == 0 then Resolution(site, Some(u))
      else
        WalkIsRepresentative(u.trace, d, site);
        Resolution(Walk(u.trace, d, 0, site), Some(u))
  }

  /** A cause is unwrapped once and only once: the cause's own cause is
      never looked at. */
  lemma UnwrapsOneLevel(inner: Exception, outer: Exception, depths: map<string, int>, given: Location)
    requires outer.previous == Some(inner)
    ensures TraceException(Some(outer), depths, given).exception == Some(inner)
  {
  }

  /** Skip depths 1 and 2 select the same frame: the first file-bearing frame
      is never adopted and the counter already stands at 2 at the second. */
  lemma DepthsOneAndTwoAgree(e: Exception, depths: map<string, int>, given: Location)
    requires Unwrap(e).className in depths && depths[Unwrap(e).className] == 1
    ensures TraceException(Some(e), depths, given).location
         == TraceException(Some(e), depths[Unwrap(e).className := 2], given).location
  {
  }

  /** The first file-bearing frame is never the one reported. */
  lemma FirstFileFrameSkipped(trace: seq<Frame>, d: int, seed: Location)
    requires |FileFrames(trace)| == 1
    ensures Representative(trace, d, seed) == seed
  {
  }

  function FileFrame(file: string, line: int): Frame {
    Frame(Some(file), Some(line), None, None, None, None)
  }

  /** Five frames, all with a file, and skip depth 2: the second frame is
      reported, not the third. */
  lemma DepthTwoPicksSecondFrame(seed: Location)
    ensures Walk([FileFrame("a", 1), FileFrame("b", 2), FileFrame("c", 3), FileFrame("d", 4), FileFrame("e", 5)], 2, 0, seed)
         == Location("b", Some(2))
  {
    var fs := [FileFrame("a", 1), FileFrame("b", 2), FileFrame("c", 3), FileFrame("d", 4), FileFrame("e", 5)];
    assert fs[1..][1..] == fs[2..];
  }
}
