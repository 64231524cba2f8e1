/** One bLazy instance (blazy.js lines 27-157, 205-215): the candidate
    registry, the validation pass, the bound/unbound lifecycle and the
    throttled scroll/resize handlers. The module-level `source`, `viewport`
    and `isRetina` of the script are fields of the instance here. */
module Lazy {
  import opened Seqs
  import opened Geometry
  import opened Throttling
  import opened Config
  import opened Loader

  /** Where a listener is registered: the window or a scroll container node. */
  datatype Target = Window | Container(id: nat)

  datatype EventType = Scroll | Resize

  /** The two throttled closures `util.validateT` and `util.saveViewportOffsetT`. */
  datatype Handler = ValidateT | SaveViewportOffsetT

  /** One `addEventListener(type, fn)` registration. */
  datatype Listener = Listener(target: Target, event: EventType, handler: Handler)

  /** A recorded invocation of a user callback. */
  datatype Callback = ErrorCallback(ele: Element, reason: string) | SuccessCallback(ele: Element)

  /** An image probe started by `loadElement` whose onload/onerror has not fired yet. */
  datatype Probe = Probe(ele: Element, url: string, isImage: bool)

  /** What a validation pass has done so far: the document, the decisions
      the loader took, and the callback and probe logs. */
  datatype Progress = Progress(doc: map<Element, Node>, acts: seq<Action>, callbacks: seq<Callback>, probes: seq<Probe>)

  /** The scroll registrations on the containers (lines 130-134). */
  function ContainerBindings(containers: seq<nat>): set<Listener> {
    set c | c in containers :: Listener(Container(c), Scroll, ValidateT)
  }

  /** Everything `initialize` registers: one scroll listener per container and
      the three window listeners of lines 135-137. */
  function Bindings(containers: seq<nat>): set<Listener> {
    ContainerBindings(containers)
    + {Listener(Window, Resize, SaveViewportOffsetT), Listener(Window, Resize, ValidateT),
       Listener(Window, Scroll, ValidateT)}
  }

  /** The test a validation pass applies to a candidate: in the expanded
      viewport, or already carrying the success class. */
  predicate Resolves(n: Node, vp: Rect, successClass: string) {
    InView(n.rect, vp) || IsElementLoaded(n.state.className, successClass)
  }

  /** Every entry of `es` is an element of the document `m`. */
  predicate InDocument(m: map<Element, Node>, es: seq<Element>) {
    forall e :: e in es ==> e in m
  }

  /** The test applied to each entry of `es`, in document state `m`. */
  function Flags(m: map<Element, Node>, es: seq<Element>, vp: Rect, successClass: string): seq<bool>
    requires InDocument(m, es)
  {
    seq(|es|, k requires 0 <= k < |es| => Resolves(m[es[k]], vp, successClass))
  }

  /** The flag of entry `k`, when there is one, is the test on that entry. */
  lemma FlagsAt(m: map<Element, Node>, es: seq<Element>, vp: Rect, successClass: string, k: nat)
    requires InDocument(m, es)
    ensures |Flags(m, es, vp, successClass)| == |es|
    ensures k < |es| ==> Flags(m, es, vp, successClass)[k] == Resolves(m[es[k]], vp, successClass)
  {
  }

  /** The candidates a validation pass keeps, in registry order. */
  function Survivors(m: map<Element, Node>, es: seq<Element>, vp: Rect, successClass: string): (s: seq<Element>)
    requires InDocument(m, es)
    ensures InDocument(m, s) && |s| <= |es|
  {
    SelectSubset(es, Flags(m, es, vp, successClass), |es|, false);
    Select(es, Flags(m, es, vp, successClass), |es|, false)
  }

  /** The candidates a validation pass hands to the loader, in registry order. */
  function Handed(m: map<Element, Node>, es: seq<Element>, vp: Rect, successClass: string): (h: seq<Element>)
    requires InDocument(m, es)
    ensures InDocument(m, h)
  {
    SelectSubset(es, Flags(m, es, vp, successClass), |es|, true);
    Select(es, Flags(m, es, vp, successClass), |es|, true)
  }

  /** A validation pass over a registry without repetitions splits it in two:
      the loader receives each candidate that passes the test exactly once,
      the registry keeps each one that fails it exactly once, and nothing is
      lost or added. */
  lemma ValidationPartition(m: map<Element, Node>, es: seq<Element>, vp: Rect, successClass: string)
    requires InDocument(m, es) && Distinct(es)
    ensures var s, h := Survivors(m, es, vp, successClass), Handed(m, es, vp, successClass);
            && Distinct(s) && Distinct(h) && |s| + |h| == |es|
            && (forall e :: e in h <==> e in es && Resolves(m[e], vp, successClass))
            && (forall e :: e in s <==> e in es && !Resolves(m[e], vp, successClass))
  {
    var f := Flags(m, es, vp, successClass);
    SelectDistinct(es, f, |es|, false);
    SelectDistinct(es, f, |es|, true);
    SelectSizes(es, f, |es|);
    forall e
      ensures e in Handed(m, es, vp, successClass) <==> e in es && Resolves(m[e], vp, successClass)
      ensures e in Survivors(m, es, vp, successClass) <==> e in es && !Resolves(m[e], vp, successClass)
    {
      SelectMembers(es, f, |es|, true, e);
      SelectMembers(es, f, |es|, false, e);
    }
  }

  /** The callback a `loadElement` call that took decision `a` makes at once:
      only the "missing" report, and only when an error callback is set. */
  function Reports(e: Element, a: Action, o: Options): seq<Callback> {
    if a == ReportMissing && o.onError then [ErrorCallback(e, "missing")] else []
  }

  /** The probe a `loadElement` call that took decision `a` starts, if any. */
  function Probes(e: Element, a: Action): seq<Probe> {
    match a
    case StartProbe(url, isImage) => [Probe(e, url, isImage)]
    case _ => []
  }

  /** The callbacks of loading `es[k]` with decision `acts[k]`, for each k in order. */
  function ReportLog(es: seq<Element>, acts: seq<Action>, o: Options): seq<Callback>
    requires |acts| == |es|
    decreases |es|
  {
    if es == [] then []
    else
      var n := |es| - 1;
      ReportLog(es[..n], acts[..n], o) + Reports(es[n], acts[n], o)
  }

  /** The probes started by loading `es[k]` with decision `acts[k]`, for each k in order. */
  function ProbeLog(es: seq<Element>, acts: seq<Action>): seq<Probe>
    requires |acts| == |es|
    decreases |es|
  {
    if es == [] then []
    else
      var n := |es| - 1;
      ProbeLog(es[..n], acts[..n]) + Probes(es[n], acts[n])
  }

  /** Every probe a list of loads starts is for one of the loaded elements. */
  lemma {:induction false} ProbeLogFrom(es: seq<Element>, acts: seq<Action>)
    requires |acts| == |es|
    ensures forall p :: p in ProbeLog(es, acts) ==> p.ele in es
    decreases |es|
  {
    if es != [] {
      var n := |es| - 1;
      ProbeLogFrom(es[..n], acts[..n]);
      forall p | p in ProbeLog(es, acts) ensures p.ele in es {
        if p in ProbeLog(es[..n], acts[..n]) {
          assert p.ele in es[..n];
        } else {
          assert p in Probes(es[n], acts[n]);
        }
      }
    }
  }

  /** Logging one more load extends both logs by that load's entries. */
  lemma LogStep(es: seq<Element>, acts: seq<Action>, e: Element, a: Action, o: Options,
                cs: seq<Callback>, ps: seq<Probe>)
    requires |acts| == |es|
    ensures cs + ReportLog(es + [e], acts + [a], o) == cs + ReportLog(es, acts, o) + Reports(e, a, o)
    ensures ps + ProbeLog(es + [e], acts + [a]) == ps + ProbeLog(es, acts) + Probes(e, a)
  {
    assert (es + [e])[..|es|] == es;
    assert (acts + [a])[..|es|] == acts;
    assert cs + (ReportLog(es, acts, o) + Reports(e, a, o)) == cs + ReportLog(es, acts, o) + Reports(e, a, o);
    assert ps + (ProbeLog(es, acts) + Probes(e, a)) == ps + ProbeLog(es, acts) + Probes(e, a);
  }


  /** `toArray`: walk the node list backwards, prepending each node; the
      result keeps the query's document order. */
  method ToArray<T>(nodelist: seq<T>) returns (arr: seq<T>)
    ensures arr == nodelist
  {
    arr := [];
    var i := |nodelist|;
    while i > 0
      invariant 0 <= i <= |nodelist|
      invariant arr == nodelist[i..]
    {
      i := i - 1;
      arr := [nodelist[i]] + arr;
    }
  }

  class Blazy {
    const options: Options
    const isRetina: bool
    /** The attribute name the breakpoints resolved to (`options.src` when none fits). */
    const source: string
    const validateT: Throttle
    const saveViewportOffsetT: Throttle
    /** The document the instance queried its candidates from. */
    const doc: Document
    var viewport: Rect
    /** `util.elements` and `util.count`. */
    var elements: seq<Element>
    var count: int
    /** `util.destroyed`: true while no listener is bound. */
    var destroyed: bool
    var listeners: set<Listener>
    /** The user callbacks invoked so far, and the probes not yet settled. */
    var callbacks: seq<Callback>
    var pending: seq<Probe>

    /** The registry: `count` tracks its length, it has no repetitions and
        every candidate is an element of the document. */
    ghost predicate Registry()
      reads this`elements, this`count, doc
    {
      && count == |elements|
      && Distinct(elements)
      && InDocument(doc.nodes, elements)
    }

    /** What the constructor fixed: two distinct throttles with the configured
        delays, a resolved source attribute and the viewport's top-left corner. */
    ghost predicate Setup()
      reads this`viewport
    {
      && validateT != saveViewportOffsetT
      && validateT.minDelay == options.validateDelay
      && saveViewportOffsetT.minDelay == options.saveViewportOffsetDelay
      && (source == options.src || source in BreakpointNames(options.breakpoints))
      && viewport.top == -options.offset && viewport.left == -options.offset
    }

    /** An unbound instance has no listeners; a bound one has exactly the
        listeners `initialize` adds. */
    ghost predicate Listening()
      reads this`destroyed, this`listeners
    {
      && (destroyed ==> listeners == {})
      && (!destroyed ==> listeners == Bindings(options.containers))
    }

    /** Every unsettled probe is for an element of the document. */
    ghost predicate Probing()
      reads this`pending, doc
    {
      forall p :: p in pending ==> p.ele in doc.nodes
    }

    ghost predicate Valid()
      reads this, doc
    {
      Registry() && Setup() && Listening() && Probing() && (destroyed ==> elements == [])
    }

    /** Between public operations the instance is bound exactly when it still has candidates. */
    ghost predicate Settled()
      reads this`destroyed, this`elements
    {
      destroyed <==> elements == []
    }

    /** The decision `loadElement` takes on this instance for element `e` in document state `n`. */
    function Decide(n: Node, e: Element, force: bool): Action {
      Plan(n.state, e.nodeName, n.rendered, force, options, source, isRetina)
    }

    /** The document once `loadElement(e, force)` has returned: only `e`'s
        state differs. An element the document does not hold is left alone. */
    function LoadStep(m: map<Element, Node>, e: Element, force: bool): map<Element, Node> {
      if e in m then m[e := m[e].(state := Apply(m[e].state, Decide(m[e], e, force), options))] else m
    }

    /** The document once `loadElement` has run on each entry of `es` in order. */
    function Run(m: map<Element, Node>, es: seq<Element>, force: bool): map<Element, Node>
      decreases |es|
    {
      if es == [] then m
      else LoadStep(Run(m, es[..|es| - 1], force), es[|es| - 1], force)
    }

    /** The decision `loadElement(e, force)` takes in document state `m`. */
    function DecideIn(m: map<Element, Node>, e: Element, force: bool): Action {
      if e in m then Decide(m[e], e, force) else Skip
    }

    /** The decisions taken along `Run(m, es, force)`, one per entry of `es`. */
    function Acts(m: map<Element, Node>, es: seq<Element>, force: bool): (acts: seq<Action>)
      ensures |acts| == |es|
      decreases |es|
    {
      if es == [] then []
      else
        var n := |es| - 1;
        Acts(m, es[..n], force) + [DecideIn(Run(m, es[..n], force), es[n], force)]
    }

    /** One more load extends the run by one step. */
    lemma RunStep(m: map<Element, Node>, es: seq<Element>, e: Element, force: bool)
      ensures Run(m, es + [e], force) == LoadStep(Run(m, es, force), e, force)
      ensures Acts(m, es + [e], force) == Acts(m, es, force) + [DecideIn(Run(m, es, force), e, force)]
    {
      assert (es + [e])[..|es|] == es;
    }

    /** Loading never removes an element from the document. */
    lemma {:induction false} RunKeeps(m: map<Element, Node>, es: seq<Element>, force: bool, x: Element)
      requires x in m
      ensures x in Run(m, es, force)
      decreases |es|
    {
      if es != [] {
        RunKeeps(m, es[..|es| - 1], force, x);
      }
    }

    /** Loading keeps every element of a list in the document. */
    lemma RunKeepsAll(m: map<Element, Node>, es: seq<Element>, force: bool, xs: seq<Element>)
      requires InDocument(m, xs)
      ensures InDocument(Run(m, es, force), xs)
    {
      forall x | x in xs
        ensures x in Run(m, es, force)
      {
        RunKeeps(m, es, force, x);
      }
    }

    /** After loading elements of the document, the probes started before and
        those the loads started are all for elements of the document. */
    lemma PendingKept(m: map<Element, Node>, es: seq<Element>, force: bool, ps: seq<Probe>, acts: seq<Action>)
      requires InDocument(m, es) && |acts| == |es|
      requires forall p :: p in ps ==> p.ele in m
      ensures forall p :: p in ps + ProbeLog(es, acts) ==> p.ele in Run(m, es, force)
    {
      ProbeLogFrom(es, acts);
      forall p | p in ps + ProbeLog(es, acts) ensures p.ele in Run(m, es, force) {
        RunKeeps(m, es, force, p.ele);
      }
    }

    /** An element that is not loaded keeps its entry. */
    lemma {:induction false} RunOutside(m: map<Element, Node>, es: seq<Element>, force: bool, x: Element)
      requires x in m && x !in es
      ensures x in Run(m, es, force) && Run(m, es, force)[x] == m[x]
      decreases |es|
    {
      if es != [] {
        var n := |es| - 1;
        assert es == es[..n] + [es[n]];
        RunOutside(m, es[..n], force, x);
      }
    }

    /** Loading a list without repetitions loads each entry once, from the
        state it had before the run, and leaves every other element alone. */
    lemma {:induction false} RunDistinct(m: map<Element, Node>, es: seq<Element>, force: bool)
      requires InDocument(m, es) && Distinct(es)
      ensures forall k :: 0 <= k < |es| ==>
                (Acts(m, es, force)[k] == Decide(m[es[k]], es[k], force)
                 && es[k] in Run(m, es, force) && Run(m, es, force)[es[k]]
                    == m[es[k]].(state := Apply(m[es[k]].state, Decide(m[es[k]], es[k], force), options)))
      ensures forall x :: x in m && x !in es ==> x in Run(m, es, force) && Run(m, es, force)[x] == m[x]
      decreases |es|
    {
      if es != [] {
        var n := |es| - 1;
        var p := es[..n];
        assert es == p + [es[n]];
        assert Distinct(p);
        RunStep(m, p, es[n], force);
        RunDistinct(m, p, force);
        RunOutside(m, p, force, es[n]);
        forall x | x in m && x !in es ensures x in Run(m, es, force) && Run(m, es, force)[x] == m[x] {
          RunOutside(m, es, force, x);
        }
      }
    }

    /** After a pass over a registry without repetitions, the registry still
        has none and all of its entries are still in the document. */
    lemma PassKeepsRegistry(m: map<Element, Node>, es: seq<Element>, vp: Rect, successClass: string)
      requires InDocument(m, es) && Distinct(es)
      ensures var s := Survivors(m, es, vp, successClass);
              Distinct(s) && InDocument(Run(m, Handed(m, es, vp, successClass), false), s)
    {
      var s, h := Survivors(m, es, vp, successClass), Handed(m, es, vp, successClass);
      SelectDistinct(es, Flags(m, es, vp, successClass), |es|, false);
      forall x | x in s ensures x in Run(m, h, false) {
        RunKeeps(m, h, false, x);
      }
    }

    /** The document and the logs once `loadElement(e, false)` has run on each
        entry of `handed` in order, starting from document `m` and logs `cs`,
        `ps`; `acts` are the decisions it took. */
    ghost predicate Loaded(m: map<Element, Node>, cs: seq<Callback>, ps: seq<Probe>,
                           handed: seq<Element>, acts: seq<Action>)
      reads this`callbacks, this`pending, doc
    {
      && doc.nodes == Run(m, handed, false) && acts == Acts(m, handed, false)
      && callbacks == cs + ReportLog(handed, acts, options)
      && pending == ps + ProbeLog(handed, acts)
    }

    /** The effect of a validation pass once it has visited the first `j`
        candidates of `es`, starting from document `m` and logs `cs`, `ps`:
        each candidate flagged `true` was passed to `loadElement(e, false)`,
        in order, against the document as the earlier loads left it. */
    function Scanned(m: map<Element, Node>, cs: seq<Callback>, ps: seq<Probe>,
                     es: seq<Element>, flags: seq<bool>, j: nat): Progress
      requires j <= |es| == |flags|
      decreases j
    {
      if j == 0 then Progress(m, [], cs, ps)
      else
        var p := Scanned(m, cs, ps, es, flags, j - 1);
        if !flags[j - 1] then p
        else
          var e := es[j - 1];
          var a := DecideIn(p.doc, e, false);
          Progress(LoadStep(p.doc, e, false), p.acts + [a], p.callbacks + Reports(e, a, options), p.probes + Probes(e, a))
    }

    /** A pass has loaded exactly the selected candidates, in order: its
        document and decisions are those of `Run`/`Acts` over them, and its
        logs grew by their reports and probes. */
    lemma {:induction false} ScannedIsRun(m: map<Element, Node>, cs: seq<Callback>, ps: seq<Probe>,
                                          es: seq<Element>, flags: seq<bool>, j: nat)
      requires j <= |es| == |flags|
      ensures var h, p := Select(es, flags, j, true), Scanned(m, cs, ps, es, flags, j);
              && p.doc == Run(m, h, false) && p.acts == Acts(m, h, false)
              && p.callbacks == cs + ReportLog(h, p.acts, options)
              && p.probes == ps + ProbeLog(h, p.acts)
      decreases j
    {
      if j > 0 {
        ScannedIsRun(m, cs, ps, es, flags, j - 1);
        var h, p := Select(es, flags, j - 1, true), Scanned(m, cs, ps, es, flags, j - 1);
        if flags[j - 1] {
          var e := es[j - 1];
          assert Select(es, flags, j, true) == h + [e];
          RunStep(m, h, e, false);
          LogStep(h, p.acts, e, DecideIn(p.doc, e, false), options, cs, ps);
        } else {
          assert Select(es, flags, j, true) == h;
        }
      }
    }

    /** A finished pass is a `Run` over the candidates it selected. */
    lemma ScanDone(m: map<Element, Node>, cs: seq<Callback>, ps: seq<Probe>,
                   es: seq<Element>, flags: seq<bool>, j: nat, acts: seq<Action>)
      requires j == |es| == |flags|
      requires Scanned(m, cs, ps, es, flags, j) == Progress(doc.nodes, acts, callbacks, pending)
      ensures Loaded(m, cs, ps, Select(es, flags, |es|, true), acts)
    {
      ScannedIsRun(m, cs, ps, es, flags, j);
    }

    /** A candidate the pass has not loaded yet still has its original entry. */
    lemma ScannedOutside(m: map<Element, Node>, cs: seq<Callback>, ps: seq<Probe>,
                         es: seq<Element>, flags: seq<bool>, j: nat, x: Element)
      requires j <= |es| == |flags| && x in m && x !in Select(es, flags, j, true)
      ensures x in Scanned(m, cs, ps, es, flags, j).doc && Scanned(m, cs, ps, es, flags, j).doc[x] == m[x]
    {
      ScannedIsRun(m, cs, ps, es, flags, j);
      RunOutside(m, Select(es, flags, j, true), false, x);
    }

    /** The constructor: options with defaults, the viewport's fixed top and
        left, the two throttles, the first viewport reading, the breakpoint
        resolution and the first `initialize`. The host supplies what the
        script reads from `window` and `document`. */
    constructor (raw: RawOptions, containerNodes: seq<nat>, retina: bool, screenWidth: int,
                 dims: Dimensions, doc: Document, nodes: seq<Element>)
      requires Distinct(nodes) && InDocument(doc.nodes, nodes)
      modifies doc
      ensures Valid() && Settled()
      ensures options == Configure(raw, containerNodes) && isRetina == retina && this.doc == doc
      ensures var fit := FirstFit(options.breakpoints, screenWidth);
              source == if fit == -1 then options.src else options.breakpoints[fit].src
      ensures viewport == Expanded(options.offset, dims)
      ensures fresh(validateT) && fresh(saveViewportOffsetT)
      ensures validateT.lastCall == 0 && saveViewportOffsetT.lastCall == 0
      ensures elements == Survivors(old(doc.nodes), nodes, viewport, options.successClass)
      ensures var h := Handed(old(doc.nodes), nodes, viewport, options.successClass);
              var acts := Acts(old(doc.nodes), h, false);
              && doc.nodes == Run(old(doc.nodes), h, false)
              && callbacks == ReportLog(h, acts, options) && pending == ProbeLog(h, acts)
      ensures listeners == if elements == [] then {} else Bindings(options.containers)
    {
      var o := Configure(raw, containerNodes);
      options := o;
      isRetina := retina;
      var resolved, _ := ResolveSource(o.breakpoints, screenWidth, o.src);
      source := resolved;
      this.doc := doc;
      viewport := Rect(0 - o.offset, 0 - o.offset, 0, 0);
      elements, count, destroyed := [], 0, true;
      listeners, callbacks, pending := {}, [], [];
      validateT := new Throttle(o.validateDelay);
      saveViewportOffsetT := new Throttle(o.saveViewportOffsetDelay);
      new;
      SaveViewportOffset(dims);
      var _, _ := Initialize(nodes);
    }

    /** `saveViewportOffset`: bottom and right from the window size plus the offset. */
    method SaveViewportOffset(dims: Dimensions)
      requires Valid()
      modifies this`viewport
      ensures Valid()
      ensures viewport == Expanded(options.offset, dims)
    {
      viewport := viewport.(bottom := Extent(dims.innerHeight, dims.clientHeight) + options.offset);
      viewport := viewport.(right := Extent(dims.innerWidth, dims.clientWidth) + options.offset);
    }

    /** `loadElement`. Only `e`'s state and the two logs change. */
    method LoadElement(e: Element, force: bool) returns (ghost a: Action)
      requires e in doc.nodes
      modifies doc, this`callbacks, this`pending
      ensures a == Decide(old(doc.nodes[e]), e, force)
      ensures doc.nodes.Keys == old(doc.nodes).Keys
      ensures doc.nodes == old(doc.nodes)[e := old(doc.nodes[e]).(state := Apply(old(doc.nodes[e].state), a, options))]
      ensures callbacks == old(callbacks) + Reports(e, a, options)
      ensures pending == old(pending) + Probes(e, a)
    {
      var node := doc.nodes[e];
      a := Decide(node, e, force);
      if (!IsElementLoaded(node.state.className, options.successClass) && force) || options.loadInvisible || node.rendered {
        var dataSrc := DeferredSource(node.state.attributes, source, options.src);
        if dataSrc.Some? {
          var url := PickSource(dataSrc.value, options.separator, isRetina);
          var isImage := IsImage(e.nodeName);
          RemoveDataAttributes(e);
          if isImage || doc.nodes[e].state.src.None? {
            assert a == StartProbe(url, isImage);
            pending := pending + [Probe(e, url, isImage)];
          } else {
            assert a == AssignSource(url);
            doc.SetState(e, doc.nodes[e].state.(src := Some(url)));
          }
        } else {
          assert a == ReportMissing;
          if options.onError {
            callbacks := callbacks + [ErrorCallback(e, "missing")];
          }
          doc.SetState(e, node.state.(className := node.state.className + " " + options.errorClass));
        }
      } else {
        assert a == Skip;
      }
    }

    /** Lines 176-179: `removeAttribute` for every breakpoint attribute (through
        `each`), then for the default attribute. */
    method RemoveDataAttributes(e: Element)
      requires e in doc.nodes
      modifies doc
      ensures var n := old(doc.nodes[e]);
              doc.nodes == old(doc.nodes)[e := n.(state := n.state.(attributes := Cleaned(n.state.attributes, options)))]
    {
      ghost var n := doc.nodes[e];
      var bps := options.breakpoints;
      var k := 0;
      assert BreakpointNames(bps[..0]) == {};
      while k < |bps|
        invariant 0 <= k <= |bps|
        invariant e in doc.nodes && doc.nodes == old(doc.nodes)[e := doc.nodes[e]]
        invariant doc.nodes[e] == n.(state := n.state.(attributes := n.state.attributes - BreakpointNames(bps[..k])))
      {
        assert BreakpointNames(bps[..k + 1]) == BreakpointNames(bps[..k]) + {bps[k].src} by {
          assert bps[..k + 1] == bps[..k] + [bps[k]];
        }
        var st := doc.nodes[e].state;
        doc.SetState(e, st.(attributes := st.attributes - {bps[k].src}));
        k := k + 1;
      }
      assert bps[..k] == bps;
      var st := doc.nodes[e].state;
      doc.SetState(e, st.(attributes := st.attributes - {options.src}));
    }

    /** The public `load` over a list: `loadElement` on each entry in order,
        whatever the registry holds and whether the instance is bound. */
    method Load(es: seq<Element>, force: bool) returns (ghost acts: seq<Action>)
      requires Valid() && InDocument(doc.nodes, es)
      modifies doc, this`callbacks, this`pending
      ensures Valid()
      ensures doc.nodes == Run(old(doc.nodes), es, force)
      ensures acts == Acts(old(doc.nodes), es, force)
      ensures callbacks == old(callbacks) + ReportLog(es, acts, options)
      ensures pending == old(pending) + ProbeLog(es, acts)
    {
      ghost var m, ps := doc.nodes, pending;
      acts := LoadEach(es, force);
      RunKeepsAll(m, es, force, elements);
      PendingKept(m, es, force, ps, acts);
    }

    /** The loop of `load`. */
    method LoadEach(es: seq<Element>, force: bool) returns (ghost acts: seq<Action>)
      requires InDocument(doc.nodes, es)
      modifies doc, this`callbacks, this`pending
      ensures doc.nodes == Run(old(doc.nodes), es, force)
      ensures acts == Acts(old(doc.nodes), es, force)
      ensures callbacks == old(callbacks) + ReportLog(es, acts, options)
      ensures pending == old(pending) + ProbeLog(es, acts)
    {
      ghost var m, cs, ps := doc.nodes, callbacks, pending;
      acts := [];
      var i := 0;
      while i < |es|
        invariant 0 <= i <= |es|
        invariant doc.nodes == Run(m, es[..i], force) && acts == Acts(m, es[..i], force)
        invariant callbacks == cs + ReportLog(es[..i], acts, options)
        invariant pending == ps + ProbeLog(es[..i], acts)
      {
        acts := LoadNext(m, cs, ps, es, i, acts, force);
        i := i + 1;
      }
      assert es[..i] == es;
    }

    /** One step of `load`: `loadElement` on entry `i` extends the run over
        the entries before it. */
    method LoadNext(ghost m: map<Element, Node>, ghost cs: seq<Callback>, ghost ps: seq<Probe>,
                    es: seq<Element>, i: nat, ghost acts: seq<Action>, force: bool)
      returns (ghost acts': seq<Action>)
      requires i < |es| && InDocument(m, es) && |acts| == i
      requires doc.nodes == Run(m, es[..i], force) && acts == Acts(m, es[..i], force)
      requires callbacks == cs + ReportLog(es[..i], acts, options) && pending == ps + ProbeLog(es[..i], acts)
      modifies doc, this`callbacks, this`pending
      ensures doc.nodes == Run(m, es[..i + 1], force) && acts' == Acts(m, es[..i + 1], force)
      ensures callbacks == cs + ReportLog(es[..i + 1], acts', options)
      ensures pending == ps + ProbeLog(es[..i + 1], acts')
    {
      var e := es[i];
      assert es[..i + 1] == es[..i] + [e];
      RunStep(m, es[..i], e, force);
      RunKeeps(m, es[..i], force, e);
      ghost var a := LoadElement(e, force);
      LogStep(es[..i], acts, e, a, options, cs, ps);
      acts' := acts + [a];
    }

    /** `validate`: the scan, then `destroy` if the registry is empty.
        `handed` lists the candidates passed to the loader, in the order they
        were passed, and `acts[k]` is the decision the loader took for `handed[k]`. */
    method Validate() returns (ghost handed: seq<Element>, ghost acts: seq<Action>)
      requires Valid()
      modifies this`elements, this`count, this`destroyed, this`listeners, this`callbacks, this`pending, doc
      ensures Valid() && Settled()
      ensures elements == Survivors(old(doc.nodes), old(elements), viewport, options.successClass)
      ensures handed == Handed(old(doc.nodes), old(elements), viewport, options.successClass)
      ensures Loaded(old(doc.nodes), old(callbacks), old(pending), handed, acts)
      ensures elements == [] ==> destroyed && listeners == {}
      ensures elements != [] ==> destroyed == old(destroyed) && listeners == old(listeners)
    {
      ghost var E0, M0, ps := elements, doc.nodes, pending;
      handed, acts := Scan(E0, M0, Flags(M0, E0, viewport, options.successClass));
      PassKeepsRegistry(M0, E0, viewport, options.successClass);
      PendingKept(M0, handed, false, ps, acts);
      if count == 0 {
        Destroy();
      }
    }

    /** The state of the loop of `validate` after visiting the first `j`
        candidates of `E0`: `els[..i]` holds the kept ones, `els[i..]` the
        unvisited ones, `handed` the passed ones, and the document and logs
        are those of loading `handed` in order. */
    ghost predicate Scanning(M0: map<Element, Node>, cs: seq<Callback>, ps: seq<Probe>,
                             E0: seq<Element>, F: seq<bool>, j: nat,
                             els: seq<Element>, n: int, i: int, handed: seq<Element>, acts: seq<Action>)
      reads this`callbacks, this`pending, doc
    {
      && 0 <= i <= n == |els| && j <= |E0| == |F|
      && els[..i] == Select(E0, F, j, false) && els[i..] == E0[j..]
      && handed == Select(E0, F, j, true)
      && Scanned(M0, cs, ps, E0, F, j) == Progress(doc.nodes, acts, callbacks, pending)
    }

    /** The loop of `validate` (lines 145-153): one forward pass that hands
        every candidate in view or already loaded to the loader and splices
        it out (`splice(i, 1); count--; i--`). */
    method Scan(ghost E0: seq<Element>, ghost M0: map<Element, Node>, ghost F: seq<bool>)
      returns (ghost handed: seq<Element>, ghost acts: seq<Action>)
      requires elements == E0 && count == |E0| && doc.nodes == M0
      requires Distinct(E0) && InDocument(M0, E0) && F == Flags(M0, E0, viewport, options.successClass)
      modifies this`elements, this`count, this`callbacks, this`pending, doc
      ensures count == |elements|
      ensures elements == Select(E0, F, |E0|, false) && handed == Select(E0, F, |E0|, true)
      ensures Loaded(M0, old(callbacks), old(pending), handed, acts)
    {
      ghost var cs, ps := callbacks, pending;
      var els, n;
      ghost var j;
      els, n, j, handed, acts := ScanLoop(M0, cs, ps, E0, F, elements, count);
      elements, count := els, n;
      ScanDone(M0, cs, ps, E0, F, j, acts);
    }

    /** The loop of `validate` over the registry `els` of `n` candidates; the
        spliced registry and its length are returned to `Scan`, which stores them. */
    method ScanLoop(ghost M0: map<Element, Node>, ghost cs: seq<Callback>, ghost ps: seq<Probe>,
                    ghost E0: seq<Element>, ghost F: seq<bool>, els: seq<Element>, n: int)
      returns (els': seq<Element>, n': int, ghost j: nat, ghost handed: seq<Element>, ghost acts: seq<Action>)
      requires els == E0 && n == |E0| && doc.nodes == M0 && callbacks == cs && pending == ps
      requires Distinct(E0) && InDocument(M0, E0) && F == Flags(M0, E0, viewport, options.successClass)
      modifies doc, this`callbacks, this`pending
      ensures j == |E0| == |F| && n' == |els'|
      ensures els' == Select(E0, F, j, false) && handed == Select(E0, F, j, true)
      ensures Scanned(M0, cs, ps, E0, F, j) == Progress(doc.nodes, acts, callbacks, pending)
    {
      FlagsAt(M0, E0, viewport, options.successClass, 0);
      els', n' := els, n;
      handed, acts := [], [];
      j := 0;
      var i := 0;
      while i < n'
        invariant Scanning(M0, cs, ps, E0, F, j, els', n', i, handed, acts)
        decreases n' - i
      {
        els', n', i, handed, acts := Step(M0, cs, ps, E0, F, j, els', n', i, handed, acts);
        i := i + 1;
        j := j + 1;
      }
      assert els'[..i] == els' && E0[j..] == [];
    }

    /** The body of the loop of `validate` (lines 146-152) on candidate
        `els[i]`, which is `E0[j]`: when it passes, it is loaded and spliced
        out, and `count` and `i` step back. */
    method Step(ghost M0: map<Element, Node>, ghost cs: seq<Callback>, ghost ps: seq<Probe>,
                ghost E0: seq<Element>, ghost F: seq<bool>, ghost j: nat,
                els: seq<Element>, n: int, i: int, ghost handed: seq<Element>, ghost acts: seq<Action>)
      returns (els': seq<Element>, n': int, i': int, ghost handed': seq<Element>, ghost acts': seq<Action>)
      requires Scanning(M0, cs, ps, E0, F, j, els, n, i, handed, acts) && i < n
      requires Distinct(E0) && InDocument(M0, E0) && F == Flags(M0, E0, viewport, options.successClass)
      modifies doc, this`callbacks, this`pending
      ensures Scanning(M0, cs, ps, E0, F, j + 1, els', n', i' + 1, handed', acts') && n' - i' == n - i
    {
      assert els[i..] == E0[j..] && j < |E0|;
      FlagsAt(M0, E0, viewport, options.successClass, j);
      var element := els[i];
      ScanStep(els, i, E0, F, j);
      NotYetSelected(E0, F, j, true);
      var resolves;
      resolves, acts' := Visit(M0, cs, ps, E0, F, j, acts, element);
      els', n', i', handed' := els, n, i, handed;
      if resolves {
        els' := els[..i] + els[i + 1..];
        n' := n - 1;
        i' := i - 1;
        handed' := handed + [element];
      }
    }

    /** One step of the loop of `validate` (lines 146-152): test candidate
        `E0[j]` against the viewport and the success class, and pass it to
        `loadElement(e, false)` when it passes. */
    method Visit(ghost M0: map<Element, Node>, ghost cs: seq<Callback>, ghost ps: seq<Probe>,
                 ghost E0: seq<Element>, ghost F: seq<bool>, ghost j: nat, ghost acts: seq<Action>,
                 element: Element)
      returns (resolves: bool, ghost acts': seq<Action>)
      requires j < |E0| == |F| && element == E0[j] && element in M0
      requires element !in Select(E0, F, j, true)
      requires F[j] == Resolves(M0[element], viewport, options.successClass)
      requires Scanned(M0, cs, ps, E0, F, j) == Progress(doc.nodes, acts, callbacks, pending)
      modifies doc, this`callbacks, this`pending
      ensures resolves == F[j]
      ensures Scanned(M0, cs, ps, E0, F, j + 1) == Progress(doc.nodes, acts', callbacks, pending)
    {
      ScannedOutside(M0, cs, ps, E0, F, j, element);
      var node := doc.nodes[element];
      resolves := InView(node.rect, viewport) || IsElementLoaded(node.state.className, options.successClass);
      acts' := acts;
      if resolves {
        ghost var a := LoadElement(element, false);
        acts' := acts + [a];
      }
    }

    /** `destroy`: unbind every listener, empty the registry, mark the instance unbound. */
    method Destroy()
      requires Setup() && Listening() && Probing() && (destroyed ==> elements == [] && count == 0)
      modifies this`elements, this`count, this`destroyed, this`listeners
      ensures Valid() && Settled()
      ensures destroyed && elements == [] && count == 0 && listeners == {}
      ensures old(destroyed) ==> unchanged(this)
    {
      var cs := options.containers;
      var k := 0;
      while k < |cs|
        invariant 0 <= k <= |cs|
        invariant listeners == old(listeners) - ContainerBindings(cs[..k])
        modifies this`listeners
      {
        assert ContainerBindings(cs[..k + 1]) == ContainerBindings(cs[..k]) + {Listener(Container(cs[k]), Scroll, ValidateT)} by {
          assert cs[..k + 1] == cs[..k] + [cs[k]];
        }
        listeners := listeners - {Listener(Container(cs[k]), Scroll, ValidateT)};
        k := k + 1;
      }
      assert cs[..k] == cs;
      listeners := listeners - {Listener(Window, Scroll, ValidateT)};
      listeners := listeners - {Listener(Window, Resize, ValidateT)};
      listeners := listeners - {Listener(Window, Resize, SaveViewportOffsetT)};
      count := 0;
      elements := [];
      destroyed := true;
    }

    /** `initialize` (also `revalidate`): the registry becomes the query result,
        listeners are bound only if the instance was unbound, and one validation
        pass runs. */
    method Initialize(nodes: seq<Element>) returns (ghost handed: seq<Element>, ghost acts: seq<Action>)
      requires Valid() && Distinct(nodes) && InDocument(doc.nodes, nodes)
      modifies this`elements, this`count, this`destroyed, this`listeners, this`callbacks, this`pending, doc
      ensures Valid() && Settled()
      ensures elements == Survivors(old(doc.nodes), nodes, viewport, options.successClass)
      ensures handed == Handed(old(doc.nodes), nodes, viewport, options.successClass)
      ensures doc.nodes == Run(old(doc.nodes), handed, false) && acts == Acts(old(doc.nodes), handed, false)
      ensures callbacks == old(callbacks) + ReportLog(handed, acts, options)
      ensures pending == old(pending) + ProbeLog(handed, acts)
      ensures listeners == if elements == [] then {} else Bindings(options.containers)
      ensures !old(destroyed) && elements != [] ==> listeners == old(listeners)
    {
      var arr := ToArray(nodes);
      elements := arr;
      count := |elements|;
      if destroyed {
        destroyed := false;
        Bind();
      }
      handed, acts := Validate();
    }

    /** The binding half of `initialize` (lines 130-137): `validate` on
        scroll of every container, then `saveViewportOffset` and `validate`
        on resize and `validate` on scroll of the window. */
    method Bind()
      requires listeners == {}
      modifies this`listeners
      ensures listeners == Bindings(options.containers)
    {
      var cs := options.containers;
      var k := 0;
      while k < |cs|
        invariant 0 <= k <= |cs|
        invariant listeners == ContainerBindings(cs[..k])
      {
        assert ContainerBindings(cs[..k + 1]) == ContainerBindings(cs[..k]) + {Listener(Container(cs[k]), Scroll, ValidateT)} by {
          assert cs[..k + 1] == cs[..k] + [cs[k]];
        }
        listeners := listeners + {Listener(Container(cs[k]), Scroll, ValidateT)};
        k := k + 1;
      }
      assert cs[..k] == cs;
      listeners := listeners + {Listener(Window, Resize, SaveViewportOffsetT)};
      listeners := listeners + {Listener(Window, Resize, ValidateT)};
      listeners := listeners + {Listener(Window, Scroll, ValidateT)};
    }

    /** `util.saveViewportOffsetT()` at time `now`. */
    method OnSaveViewportOffsetSignal(now: int, dims: Dimensions) returns (ran: bool)
      requires Valid()
      modifies saveViewportOffsetT, this`viewport
      ensures Valid()
      ensures ran <==> Admits(old(saveViewportOffsetT.lastCall), options.saveViewportOffsetDelay, now)
      ensures saveViewportOffsetT.lastCall == if ran then now else old(saveViewportOffsetT.lastCall)
      ensures viewport == if ran then Expanded(options.offset, dims) else old(viewport)
    {
      ran := saveViewportOffsetT.Call(now);
      if ran {
        SaveViewportOffset(dims);
      }
    }

    /** `util.validateT()` at time `now`. */
    method OnValidateSignal(now: int) returns (ran: bool, ghost handed: seq<Element>, ghost acts: seq<Action>)
      requires Valid() && Settled()
      modifies validateT, this`elements, this`count, this`destroyed, this`listeners, this`callbacks, this`pending, doc
      ensures Valid() && Settled()
      ensures ran <==> Admits(old(validateT.lastCall), options.validateDelay, now)
      ensures validateT.lastCall == if ran then now else old(validateT.lastCall)
      ensures !ran ==> unchanged(this, doc) && handed == []
      ensures ran ==> elements == Survivors(old(doc.nodes), old(elements), viewport, options.successClass)
      ensures ran ==> handed == Handed(old(doc.nodes), old(elements), viewport, options.successClass)
      ensures ran ==> doc.nodes == Run(old(doc.nodes), handed, false) && acts == Acts(old(doc.nodes), handed, false)
      ensures ran ==> callbacks == old(callbacks) + ReportLog(handed, acts, options)
      ensures ran ==> pending == old(pending) + ProbeLog(handed, acts)
    {
      handed, acts := [], [];
      ran := validateT.Call(now);
      if ran {
        handed, acts := Validate();
      }
    }

    /** The host delivers `event` on `target` at time `now`: the registered
        handlers run in registration order (for a window resize, the viewport
        refresh before the validation). */
    method Dispatch(target: Target, event: EventType, now: int, dims: Dimensions)
      requires Valid() && Settled()
      modifies validateT, saveViewportOffsetT, this`viewport, this`elements, this`count, this`destroyed,
               this`listeners, this`callbacks, this`pending, doc
      ensures Valid() && Settled()
      ensures (forall h :: Listener(target, event, h) !in old(listeners)) ==>
                unchanged(this, validateT, saveViewportOffsetT, doc)
      ensures old(destroyed) ==> unchanged(this, validateT, saveViewportOffsetT, doc)
      ensures var refresh := Listener(target, event, SaveViewportOffsetT) in old(listeners)
                             && Admits(old(saveViewportOffsetT.lastCall), options.saveViewportOffsetDelay, now);
              && saveViewportOffsetT.lastCall == (if refresh then now else old(saveViewportOffsetT.lastCall))
              && viewport == (if refresh then Expanded(options.offset, dims) else old(viewport))
      ensures var pass := Listener(target, event, ValidateT) in old(listeners)
                          && Admits(old(validateT.lastCall), options.validateDelay, now);
              var h := Handed(old(doc.nodes), old(elements), viewport, options.successClass);
              && validateT.lastCall == (if pass then now else old(validateT.lastCall))
              && (pass ==> elements == Survivors(old(doc.nodes), old(elements), viewport, options.successClass)
                           && Loaded(old(doc.nodes), old(callbacks), old(pending), h, Acts(old(doc.nodes), h, false)))
              && (!pass ==> elements == old(elements) && doc.nodes == old(doc.nodes)
                            && callbacks == old(callbacks) && pending == old(pending))
    {
      if Listener(target, event, SaveViewportOffsetT) in listeners {
        var _ := OnSaveViewportOffsetSignal(now, dims);
      }
      if Listener(target, event, ValidateT) in listeners {
        var _, _, _ := OnValidateSignal(now);
      }
    }

    /** The image probe `pending[k]` settles: `onload` when `ok`, `onerror` otherwise. */
    method CompleteProbe(k: nat, ok: bool)
      requires Valid() && k < |pending|
      modifies this`pending, this`callbacks, doc
      ensures Valid()
      ensures pending == old(pending[..k] + pending[k + 1..])
      ensures var p := old(pending[k]);
              var n := old(doc.nodes[p.ele]);
              doc.nodes == old(doc.nodes)[p.ele := n.(state := if ok then ProbeLoaded(n.state, p.url, p.isImage, options)
                                                               else ProbeFailed(n.state, options))]
      ensures var p := old(pending[k]);
              callbacks == old(callbacks) + if ok then (if options.onSuccess then [SuccessCallback(p.ele)] else [])
                                            else (if options.onError then [ErrorCallback(p.ele, "invalid")] else [])
    {
      var p := pending[k];
      var e := p.ele;
      pending := pending[..k] + pending[k + 1..];
      var st := doc.nodes[e].state;
      if ok {
        st := if p.isImage then st.(src := Some(p.url)) else st.(backgroundImage := "url(\"" + p.url + "\")");
        doc.SetState(e, st.(className := st.className + " " + options.successClass));
        if options.onSuccess {
          callbacks := callbacks + [SuccessCallback(e)];
        }
      } else {
        if options.onError {
          callbacks := callbacks + [ErrorCallback(e, "invalid")];
        }
        doc.SetState(e, st.(className := st.className + " " + options.errorClass));
      }
    }
  }
}
