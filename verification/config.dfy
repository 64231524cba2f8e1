/** The options of one bLazy instance (blazy.js constructor, lines 47-60) and
    the breakpoint resolution of the deferred-source attribute name (107-113). */
module Config {

  /** `{width, src}`: on screens at most `width` wide, read the source from attribute `src`. */
  datatype Breakpoint = Breakpoint(width: int, src: string)

  /** The options object as the caller passes it. JavaScript's `||` replaces
      every falsy value by the default, so a missing entry is written here as
      its falsy value: `""`, `0`, `false`, `[]`. `onError`/`onSuccess` say
      whether the callback is given; `container` is the selector string. */
  datatype RawOptions = RawOptions(
    onError: bool, offset: int, onSuccess: bool, selector: string,
    separator: string, container: string, errorClass: string,
    breakpoints: seq<Breakpoint>, loadInvisible: bool, successClass: string,
    validateDelay: int, saveViewportOffsetDelay: int, src: string)

  /** The options after defaulting. `containers` holds the scroll containers
      the container selector matched (empty when no selector was given). */
  datatype Options = Options(
    onError: bool, offset: int, onSuccess: bool, selector: string,
    separator: Separator, containers: seq<nat>, errorClass: string,
    breakpoints: seq<Breakpoint>, loadInvisible: bool, successClass: string,
    validateDelay: int, saveViewportOffsetDelay: int, src: string)

  /** A separator `split` can cut on; `options.separator || '|'` is never empty. */
  type Separator = s: string | s != "" witness "|"

  /** An options object with nothing set. */
  const NoOptions := RawOptions(false, 0, false, "", "", "", "", [], false, "", 0, 0, "")

  /** `raw || dflt` on strings. */
  function OrString(raw: string, dflt: string): string {
    if raw != "" then raw else dflt
  }

  /** `raw || dflt` on numbers. */
  function OrNumber(raw: int, dflt: int): int {
    if raw != 0 then raw else dflt
  }

  /** Every option the caller set is kept, every other one takes its default,
      so no option is falsy afterwards. `containerNodes` is what the host's
      query returns for the container selector. */
  function Configure(raw: RawOptions, containerNodes: seq<nat>): (o: Options)
    ensures o.offset != 0 && o.validateDelay != 0 && o.saveViewportOffsetDelay != 0
    ensures o.selector != "" && o.separator != "" && o.errorClass != "" && o.successClass != "" && o.src != ""
    ensures raw.offset != 0 ==> o.offset == raw.offset
    ensures raw.offset == 0 ==> o.offset == 100
    ensures raw.selector != "" ==> o.selector == raw.selector
    ensures raw.selector == "" ==> o.selector == ".b-lazy"
    ensures raw.separator != "" ==> o.separator == raw.separator
    ensures raw.separator == "" ==> o.separator == "|"
    ensures raw.errorClass != "" ==> o.errorClass == raw.errorClass
    ensures raw.errorClass == "" ==> o.errorClass == "b-error"
    ensures raw.successClass != "" ==> o.successClass == raw.successClass
    ensures raw.successClass == "" ==> o.successClass == "b-loaded"
    ensures raw.validateDelay != 0 ==> o.validateDelay == raw.validateDelay
    ensures raw.validateDelay == 0 ==> o.validateDelay == 25
    ensures raw.saveViewportOffsetDelay != 0 ==> o.saveViewportOffsetDelay == raw.saveViewportOffsetDelay
    ensures raw.saveViewportOffsetDelay == 0 ==> o.saveViewportOffsetDelay == 50
    ensures raw.src != "" ==> o.src == raw.src
    ensures raw.src == "" ==> o.src == "data-src"
    ensures raw.container != "" ==> o.containers == containerNodes
    ensures raw.container == "" ==> o.containers == []
    ensures o.breakpoints == raw.breakpoints && o.loadInvisible == raw.loadInvisible
    ensures o.onError == raw.onError && o.onSuccess == raw.onSuccess
  {
    Options(
      raw.onError, OrNumber(raw.offset, 100), raw.onSuccess, OrString(raw.selector, ".b-lazy"),
      OrString(raw.separator, "|"), if raw.container != "" then containerNodes else [],
      OrString(raw.errorClass, "b-error"), raw.breakpoints, raw.loadInvisible,
      OrString(raw.successClass, "b-loaded"), OrNumber(raw.validateDelay, 25),
      OrNumber(raw.saveViewportOffsetDelay, 50), OrString(raw.src, "data-src"))
  }

  /** The documented defaults. */
  lemma Defaults(containerNodes: seq<nat>)
    ensures Configure(NoOptions, containerNodes)
         == Options(false, 100, false, ".b-lazy", "|", [], "b-error", [], false,
                    "b-loaded", 25, 50, "data-src")
  {
  }

  /** The attribute names the breakpoints mention. */
  function BreakpointNames(bps: seq<Breakpoint>): set<string> {
    set b | b in bps :: b.src
  }

  /** The index of the first breakpoint at least as wide as the screen. */
  function FirstFit(bps: seq<Breakpoint>, screenWidth: int): (r: int)
    ensures -1 <= r < |bps|
    ensures r == -1 <==> forall k :: 0 <= k < |bps| ==> bps[k].width < screenWidth
    ensures r != -1 ==> bps[r].width >= screenWidth && forall k :: 0 <= k < r ==> bps[k].width < screenWidth
    decreases |bps|
  {
    if bps == [] then -1
    else if bps[0].width >= screenWidth then 0
    else
      var r := FirstFit(bps[1..], screenWidth);
      if r == -1 then -1 else r + 1
  }

  /** The breakpoint loop of the constructor, run through `each`: the callback
      stops the walk (returns false) at the first breakpoint whose width is at
      least the screen width and takes its attribute name. `examined` counts the
      callback invocations, so entries after the match are never looked at. */
  method ResolveSource(bps: seq<Breakpoint>, screenWidth: int, fallback: string)
    returns (source: string, examined: nat)
    ensures FirstFit(bps, screenWidth) == -1 ==> source == fallback && examined == |bps|
    ensures FirstFit(bps, screenWidth) != -1 ==>
              source == bps[FirstFit(bps, screenWidth)].src && examined == FirstFit(bps, screenWidth) + 1
    ensures source == fallback || source in BreakpointNames(bps)
  {
    source := fallback;
    var i := 0;
    var stop := false;
    while i < |bps| && !stop
      invariant 0 <= i <= |bps|
      invariant forall k :: 0 <= k < i ==> bps[k].width < screenWidth
      invariant stop ==> i < |bps| && bps[i].width >= screenWidth && source == bps[i].src
      invariant !stop ==> source == fallback
      decreases |bps| - i, !stop
    {
      if bps[i].width >= screenWidth {
        source := bps[i].src;
        stop := true;
      } else {
        i := i + 1;
      }
    }
    examined := if stop then i + 1 else i;
  }
}
