/** The loader of blazy.js (`loadElement`, lines 167-199, and
    `isElementLoaded`, 201-203) over abstract DOM elements. */
module Loader {
  import opened Strings
  import opened Geometry
  import opened Config

  /** The parts of an element the loader writes: its class attribute, its
      attributes, its `src` property (None when the element has none, i.e.
      `ele.src === undefined`) and its `style.backgroundImage`. */
  datatype ElementState = ElementState(
    className: string, attributes: map<string, string>,
    src: Option<string>, backgroundImage: string)

  datatype Option<T> = None | Some(value: T)

  /** A DOM element, by identity; its node name never changes. */
  datatype Element = Element(id: nat, nodeName: string)

  /** What the document holds for one element: the host's layout
      (`getBoundingClientRect`, and `offsetWidth > 0 && offsetHeight > 0`)
      and the parts the loader writes. */
  datatype Node = Node(rect: Rect, rendered: bool, state: ElementState)

  /** The host document. The host moves elements (their `rect` and
      `rendered`); the loader writes an element's `state` in place. */
  class Document {
    var nodes: map<Element, Node>

    constructor (nodes: map<Element, Node>)
      ensures this.nodes == nodes
    {
      this.nodes := nodes;
    }

    /** A write to element `e` (a class, attribute, `src` or style change). */
    method SetState(e: Element, st: ElementState)
      requires e in nodes
      modifies this
      ensures nodes == old(nodes)[e := old(nodes[e]).(state := st)]
    {
      nodes := nodes[e := nodes[e].(state := st)];
    }
  }

  /** What one `loadElement` call decides to do. */
  datatype Action =
    | Skip                                   // the gate is closed
    | ReportMissing                          // no deferred source: error class and "missing"
    | AssignSource(url: string)              // element with its own `src`, not an image: assigned at once
    | StartProbe(url: string, isImage: bool) // `new Image()` probes the url; the outcome comes later

  /** `isElementLoaded`: `' ' + successClass + ' '` occurs in `' ' + className + ' '`. */
  predicate IsElementLoaded(className: string, successClass: string) {
    IndexOf(" " + className + " ", " " + successClass + " ") != -1
  }

  /** The condition at line 169 with JavaScript precedence:
      `(!loaded && force) || loadInvisible || rendered`. */
  predicate Gate(loaded: bool, force: bool, loadInvisible: bool, rendered: bool) {
    (!loaded && force) || loadInvisible || rendered
  }

  /** `getAttribute`: the value, or None (null) when the attribute is absent. */
  function GetAttribute(attrs: map<string, string>, name: string): Option<string> {
    if name in attrs then Some(attrs[name]) else None
  }

  /** JavaScript truthiness of an attribute value: present and not empty. */
  predicate Truthy(v: Option<string>) {
    v.Some? && v.value != ""
  }

  /** `ele.getAttribute(source) || ele.getAttribute(options.src)`, then the
      `if (dataSrc)` test: the deferred source, or None when the missing branch runs. */
  function DeferredSource(attrs: map<string, string>, source: string, fallback: string): (r: Option<string>)
    ensures r.Some? ==> r.value != ""
    ensures Truthy(GetAttribute(attrs, source)) ==> r == Some(attrs[source])
    ensures !Truthy(GetAttribute(attrs, source)) ==>
              r == (if Truthy(GetAttribute(attrs, fallback)) then Some(attrs[fallback]) else None)
    ensures r == None <==> !Truthy(GetAttribute(attrs, source)) && !Truthy(GetAttribute(attrs, fallback))
  {
    var first := GetAttribute(attrs, source);
    var dataSrc := if Truthy(first) then first else GetAttribute(attrs, fallback);
    if Truthy(dataSrc) then dataSrc else None
  }

  /** Lines 172-173: entry 1 of the split when the display is high-density and
      there is a second entry, entry 0 otherwise. */
  function PickSource(dataSrc: string, separator: string, isRetina: bool): (url: string)
    requires separator != ""
    ensures url in Split(dataSrc, separator)
    ensures !Contains(url, separator)
  {
    var parts := Split(dataSrc, separator);
    SplitPiecesFree(dataSrc, separator);
    parts[if isRetina && |parts| > 1 then 1 else 0]
  }

  /** A source made of a standard url `a` and a high-density url `b` joined
      by the separator yields `b` on a high-density display and `a` otherwise,
      and `a` alone is used on every display. The separator is any non-empty
      string; the first one in `a + sep` must be the joining one (no earlier
      separator in `a` or straddling the join), and `b` must not contain it. */
  lemma PickStandardOrRetina(a: string, b: string, sep: string, isRetina: bool)
    requires sep != "" && IndexOf(a + sep, sep) == |a| && !Contains(b, sep)
    ensures PickSource(a + sep + b, sep, isRetina) == if isRetina then b else a
    ensures PickSource(a, sep, isRetina) == a
  {
    SplitTwo(a, b, sep);
    FreeBeforeAppended(a, sep);
    SplitOne(a, sep);
  }

  lemma PickExample()
    ensures PickSource("a.png|b.png", "|", true) == "b.png"
    ensures PickSource("a.png|b.png", "|", false) == "a.png"
    ensures PickSource("a.png", "|", true) == "a.png"
  {
    assert "a.png|b.png" == "a.png" + "|" + "b.png";
    SingleCharFree("a.png", '|');
    SingleCharFree("b.png", '|');
    PickStandardOrRetina("a.png", "b.png", "|", true);
    PickStandardOrRetina("a.png", "b.png", "|", false);
  }

  /** `ele.nodeName.toLowerCase() === 'img'`. */
  predicate IsImage(nodeName: string) {
    ToLowerAscii(nodeName) == "img"
  }

  /** The test ignores case: exactly the three-letter names spelling "img" in
      any mix of cases are images. */
  lemma IsImageIgnoresCase(nodeName: string)
    ensures IsImage(nodeName) <==>
              |nodeName| == 3 && nodeName[0] in "iI" && nodeName[1] in "mM" && nodeName[2] in "gG"
  {
    var low := ToLowerAscii(nodeName);
    if |nodeName| == 3 {
      assert low == [low[0], low[1], low[2]];
    }
  }

  /** Lines 176-179: every breakpoint attribute and the default one removed. */
  function Cleaned(attrs: map<string, string>, o: Options): (r: map<string, string>)
    ensures o.src !in r && forall n :: n in BreakpointNames(o.breakpoints) ==> n !in r
    ensures forall n :: n in attrs && n != o.src && n !in BreakpointNames(o.breakpoints) ==>
              n in r && r[n] == attrs[n]
    ensures r.Keys <= attrs.Keys
  {
    attrs - BreakpointNames(o.breakpoints) - {o.src}
  }

  /** The decision `loadElement` takes for an element in state `st`. */
  function Plan(st: ElementState, nodeName: string, rendered: bool, force: bool,
                o: Options, source: string, isRetina: bool): Action
  {
    if !Gate(IsElementLoaded(st.className, o.successClass), force, o.loadInvisible, rendered) then Skip
    else match DeferredSource(st.attributes, source, o.src)
      case None => ReportMissing
      case Some(dataSrc) =>
        var url := PickSource(dataSrc, o.separator, isRetina);
        var isImage := IsImage(nodeName);
        if isImage || st.src.None? then StartProbe(url, isImage) else AssignSource(url)
  }

  /** The element's state once `loadElement` has returned (before any probe settles). */
  function Apply(st: ElementState, a: Action, o: Options): ElementState {
    match a
    case Skip => st
    case ReportMissing => st.(className := st.className + " " + o.errorClass)
    case AssignSource(url) => st.(attributes := Cleaned(st.attributes, o), src := Some(url))
    case StartProbe(_, _) => st.(attributes := Cleaned(st.attributes, o))
  }

  /** `img.onload`: the url goes to `src` (images) or to the background, then the success class. */
  function ProbeLoaded(st: ElementState, url: string, isImage: bool, o: Options): ElementState {
    var st' := if isImage then st.(src := Some(url))
               else st.(backgroundImage := "url(\"" + url + "\")");
    st'.(className := st'.className + " " + o.successClass)
  }

  /** `img.onerror`: the error class. */
  function ProbeFailed(st: ElementState, o: Options): ElementState {
    st.(className := st.className + " " + o.errorClass)
  }

  /** A closed gate leaves the element exactly as it was. */
  lemma GateClosedLeavesElement(st: ElementState, nodeName: string, rendered: bool, force: bool,
                                o: Options, source: string, isRetina: bool)
    requires !Gate(IsElementLoaded(st.className, o.successClass), force, o.loadInvisible, rendered)
    ensures Plan(st, nodeName, rendered, force, o, source, isRetina) == Skip
    ensures Apply(st, Skip, o) == st
  {
  }

  /** Through an open gate with no deferred source, the only change is the
      error class appended once, and the outcome is "missing". */
  lemma MissingSourceMarksError(st: ElementState, nodeName: string, rendered: bool, force: bool,
                                o: Options, source: string, isRetina: bool)
    requires Gate(IsElementLoaded(st.className, o.successClass), force, o.loadInvisible, rendered)
    requires DeferredSource(st.attributes, source, o.src) == None
    ensures Plan(st, nodeName, rendered, force, o, source, isRetina) == ReportMissing
    ensures Apply(st, ReportMissing, o)
         == ElementState(st.className + " " + o.errorClass, st.attributes, st.src, st.backgroundImage)
  {
  }

  /** Through an open gate with a deferred source, the chosen url is the
      split-and-index choice, every deferred-source attribute is gone, the
      other attributes and the class are kept, and `src` is written only for
      an element that has its own `src` and is not an image. */
  lemma PresentSourceStripsAttributes(st: ElementState, nodeName: string, rendered: bool, force: bool,
                                      o: Options, source: string, isRetina: bool)
    requires source == o.src || source in BreakpointNames(o.breakpoints)
    requires Gate(IsElementLoaded(st.className, o.successClass), force, o.loadInvisible, rendered)
    requires DeferredSource(st.attributes, source, o.src).Some?
    ensures var a := Plan(st, nodeName, rendered, force, o, source, isRetina);
            var st' := Apply(st, a, o);
            var url := PickSource(DeferredSource(st.attributes, source, o.src).value, o.separator, isRetina);
            && (a == StartProbe(url, IsImage(nodeName)) || a == AssignSource(url))
            && (a.AssignSource? <==> !IsImage(nodeName) && st.src.Some?)
            && st'.className == st.className && st'.backgroundImage == st.backgroundImage
            && st'.src == (if a.AssignSource? then Some(url) else st.src)
            && source !in st'.attributes && o.src !in st'.attributes
            && (forall n :: n in BreakpointNames(o.breakpoints) ==> n !in st'.attributes)
            && (forall n :: n in st.attributes && n != o.src && n !in BreakpointNames(o.breakpoints) ==>
                  n in st'.attributes && st'.attributes[n] == st.attributes[n])
  {
  }

  /** Appending `' ' + c` to a class string makes the token test for `c` succeed. */
  lemma AppendedClassIsLoaded(className: string, c: string)
    ensures IsElementLoaded(className + " " + c, c)
  {
    var hay := " " + (className + " " + c) + " ";
    var needle := " " + c + " ";
    assert hay[|className| + 1..|className| + 1 + |needle|] == needle;
    assert OccursAt(hay, needle, |className| + 1);
  }

  /** A probe that succeeds leaves the element carrying the success class. */
  lemma ProbeLoadedMarksLoaded(st: ElementState, url: string, isImage: bool, o: Options)
    ensures IsElementLoaded(ProbeLoaded(st, url, isImage, o).className, o.successClass)
    ensures isImage ==> ProbeLoaded(st, url, isImage, o).src == Some(url)
    ensures !isImage ==> ProbeLoaded(st, url, isImage, o).backgroundImage == "url(\"" + url + "\")"
  {
    var st' := if isImage then st.(src := Some(url)) else st.(backgroundImage := "url(\"" + url + "\")");
    AppendedClassIsLoaded(st'.className, o.successClass);
  }

  /** An element loaded once and still rendered passes the gate again (the
      gate's `!loaded` binds to `force` only); its deferred-source attribute
      is gone, so a second load takes the missing branch and adds the error
      class. This is what happens when the registry still holds an element
      that was loaded through the public `load`. */
  lemma ReloadReportsMissing(st: ElementState, nodeName: string, force: bool,
                             o: Options, source: string, isRetina: bool, url: string, isImage: bool)
    requires source == o.src || source in BreakpointNames(o.breakpoints)
    requires Plan(st, nodeName, true, force, o, source, isRetina) == StartProbe(url, isImage)
    ensures var loaded := ProbeLoaded(Apply(st, StartProbe(url, isImage), o), url, isImage, o);
            && IsElementLoaded(loaded.className, o.successClass)
            && Plan(loaded, nodeName, true, false, o, source, isRetina) == ReportMissing
            && Apply(loaded, ReportMissing, o).className
               == st.className + " " + o.successClass + " " + o.errorClass
  {
    var cleaned := Apply(st, StartProbe(url, isImage), o);
    var loaded := ProbeLoaded(cleaned, url, isImage, o);
    ProbeLoadedMarksLoaded(cleaned, url, isImage, o);
    assert loaded.attributes == cleaned.attributes;
    assert DeferredSource(loaded.attributes, source, o.src) == None;
  }
}
