/** The closed-loop print script: after the log header, the G-code is split into per-layer
    files and given the camera moves, the setup file is sent, and then every layer is printed,
    photographed and checked; a layer with too many defects is logged as fixed and, when
    correction is enabled, ironed over and photographed again. The printer, the camera and the
    detector are outside the model: the run is a trace of the events the script causes, and the
    detector's verdict for each layer is its defect count, given as input. */
module Orchestrator {
  import opened Wrappers
  import opened Text
  import opened Numbers
  import IronPass = Ironing

  /** The ratios of the ironing pass printed over a fixed layer. */
  const FixingExtrusionRatio := 0.2
  const FixingSpeedRatio := 0.6

  /** The script's settings that shape the run; the number of layers is the number of counts. */
  datatype Config = Config(defectThreshold: nat, enableCorrection: bool)

  /** The G-code files the script generates or sends. */
  datatype File =
    | Setup                    // layer_0.gcode of the structure directory
    | Layer(layer: nat)        // layer_<i>.gcode of the structure directory
    | Support(layer: nat)      // layer_<i>.gcode of the support directory
    | Ironing(layer: nat)      // layer_<i>_cor.gcode of the correction directory
    | SupportIroning(layer: nat) // layer_<i>_cor.gcode of the support directory
    | End                      // end.gcode of the structure directory

  /** What the script appends to its log. */
  datatype Entry =
    | Header                                          // the settings, one per line
    | LayerLine(layer: nat, defects: nat, fixed: bool)
    | Total(count: nat)
    | FixedList(layers: seq<nat>)

  datatype Event =
    | Write(entry: Entry)                           // appended to the log file
    | SplitLayers                                   // `parse_layer` into the two directories
    | AddCameraMoves                                // `add_nozzle_movement` on the structure files
    | Send(file: File)                              // streamed to the printer, returns when done
    | Capture(layer: nat, corrected: bool)          // a photo of the layer, or of its correction
    | Generate(file: File, extrusionRatio: real, speedRatio: real) // `generate_iron_layer` from the layer's file

  // ---------------------------------------------------------------------------------------
  // The run

  /** A layer is fixed when its defect count reaches the threshold. */
  predicate Fixed(count: nat, cfg: Config) {
    count >= cfg.defectThreshold
  }

  /** Before the loop: the header, the split, the camera moves and the setup file. */
  const Preamble := [Write(Header), SplitLayers, AddCameraMoves, Send(Setup)]

  /** The ironing pass over layer `i`, its photo, and the support layer printed again. */
  function Correction(i: nat): seq<Event> {
    [Generate(Ironing(i), FixingExtrusionRatio, FixingSpeedRatio), Send(Ironing(i)), Capture(i, true),
     Generate(SupportIroning(i), FixingExtrusionRatio, 1.0), Send(Support(i))]
  }

  /** One iteration of the loop, for layer `i` with `count` defects. */
  function LayerEvents(i: nat, count: nat, cfg: Config): seq<Event> {
    [Send(Layer(i)), Capture(i, false), Send(Support(i)), Write(LayerLine(i, count, Fixed(count, cfg)))]
    + (if Fixed(count, cfg) && cfg.enableCorrection then Correction(i) else [])
  }

  /** The loop over layers 1 .. |counts|, layer `i` having `counts[i - 1]` defects. */
  function LoopEvents(counts: seq<nat>, cfg: Config): seq<Event> {
    if counts == [] then []
    else LoopEvents(counts[..|counts| - 1], cfg) + LayerEvents(|counts|, counts[|counts| - 1], cfg)
  }

  /** `fixed_layer_list`. */
  function FixedLayers(counts: seq<nat>, cfg: Config): seq<nat> {
    if counts == [] then []
    else FixedLayers(counts[..|counts| - 1], cfg) + (if Fixed(counts[|counts| - 1], cfg) then [|counts|] else [])
  }

  /** After the loop: the end file, then the summary. */
  function Closing(fixed: seq<nat>): seq<Event> {
    [Send(End), Write(Total(|fixed|)), Write(FixedList(fixed))]
  }

  /** The whole run. */
  function Workflow(counts: seq<nat>, cfg: Config): seq<Event> {
    Preamble + LoopEvents(counts, cfg) + Closing(FixedLayers(counts, cfg))
  }

  // ---------------------------------------------------------------------------------------
  // A run that an exception ends

  /** `generate_iron_layer` raises on layer `i` when `ironFails` holds: the loop has then
      printed, photographed and logged the layer as fixed, and the exception ends the script. */
  predicate Stops(count: nat, cfg: Config, ironFails: bool) {
    Fixed(count, cfg) && cfg.enableCorrection && ironFails
  }

  /** One iteration, cut short after the failing generation when it stops the script. */
  function StepEvents(i: nat, count: nat, cfg: Config, ironFails: bool): seq<Event> {
    if Stops(count, cfg, ironFails) then
      [Send(Layer(i)), Capture(i, false), Send(Support(i)), Write(LayerLine(i, count, true)),
       Generate(Ironing(i), FixingExtrusionRatio, FixingSpeedRatio)]
    else LayerEvents(i, count, cfg)
  }

  /** Where the loop has got to: its events, `fixed_layer_list`, and whether it still runs. */
  datatype LoopState = LoopState(events: seq<Event>, fixed: seq<nat>, running: bool)

  /** The loop over layers 1 .. |counts| when the ironing generation of the layers in `raising`
      raises; the first iteration that raises is the last one. */
  function Loop(counts: seq<nat>, cfg: Config, raising: set<nat>): LoopState {
    if counts == [] then LoopState([], [], true)
    else
      var prev := Loop(counts[..|counts| - 1], cfg, raising);
      if !prev.running then prev
      else
        var n, count := |counts|, counts[|counts| - 1];
        LoopState(prev.events + StepEvents(n, count, cfg, n in raising),
                  prev.fixed + (if Fixed(count, cfg) then [n] else []),
                  !Stops(count, cfg, n in raising))
  }

  /** The script's events: the end file and the summary follow only a loop that ran to its end. */
  function Run(counts: seq<nat>, cfg: Config, raising: set<nat>): seq<Event> {
    var loop := Loop(counts, cfg, raising);
    Preamble + loop.events + (if loop.running then Closing(loop.fixed) else [])
  }

  /** No iteration raises. */
  predicate NoneRaise(counts: seq<nat>, cfg: Config, raising: set<nat>) {
    forall k :: 0 <= k < |counts| ==> !Stops(counts[k], cfg, k + 1 in raising)
  }

  /** The layers whose ironing generation raises, given each layer's G-code, layer `i` being
      `files[i - 1]`: those where the first call, with the fixing ratios, fails. */
  function RaisingLayers(files: seq<seq<string>>): set<nat> {
    set k | 0 <= k < |files| && IronPass.Iron(files[k], FixingExtrusionRatio, FixingSpeedRatio).Err? :: k + 1
  }

  /** The second generation reads the same layer file with a speed ratio of 1, so once the first
      has returned it returns too: only the first call of an iteration can raise. */
  lemma SupportIroningReturns(file: seq<string>)
    requires IronPass.Iron(file, FixingExtrusionRatio, FixingSpeedRatio).Ok?
    ensures IronPass.Iron(file, FixingExtrusionRatio, 1.0).Ok?
  {
    IronPass.IronFailsAlike(file, FixingExtrusionRatio, FixingSpeedRatio, FixingExtrusionRatio, 1.0);
  }

  /** With no raising iteration the loop is the full loop of `Workflow` and keeps running. */
  lemma {:induction false} LoopReturning(counts: seq<nat>, cfg: Config, raising: set<nat>)
    requires NoneRaise(counts, cfg, raising)
    ensures Loop(counts, cfg, raising) == LoopState(LoopEvents(counts, cfg), FixedLayers(counts, cfg), true)
    decreases |counts|
  {
    if counts != [] {
      var n := |counts|;
      var init := counts[..n - 1];
      forall k | 0 <= k < |init|
        ensures !Stops(init[k], cfg, k + 1 in raising)
      {
        assert init[k] == counts[k];
      }
      LoopReturning(init, cfg, raising);
      assert !Stops(counts[n - 1], cfg, n in raising);
    }
  }

  /** An event that is neither the end file nor a line of the summary. */
  predicate BeforeClosing(e: Event) {
    e != Send(End) && !(e.Write? && (e.entry.Total? || e.entry.FixedList?))
  }

  /** The loop still runs exactly when no iteration raised. */
  lemma {:induction false} LoopRunning(counts: seq<nat>, cfg: Config, raising: set<nat>)
    ensures Loop(counts, cfg, raising).running <==> NoneRaise(counts, cfg, raising)
    decreases |counts|
  {
    if counts != [] {
      var n := |counts|;
      var init := counts[..n - 1];
      LoopRunning(init, cfg, raising);
      forall k | 0 <= k < |init|
        ensures init[k] == counts[k]
      {
      }
      if !NoneRaise(init, cfg, raising) {
        var k :| 0 <= k < |init| && Stops(init[k], cfg, k + 1 in raising);
        assert Stops(counts[k], cfg, k + 1 in raising);
      }
    }
  }

  lemma StepBeforeClosing(i: nat, count: nat, cfg: Config, ironFails: bool)
    ensures forall e :: e in StepEvents(i, count, cfg, ironFails) ==> BeforeClosing(e)
  {
  }

  /** The loop never sends the end file or writes the summary. */
  lemma {:induction false} LoopBeforeClosing(counts: seq<nat>, cfg: Config, raising: set<nat>)
    ensures forall e :: e in Loop(counts, cfg, raising).events ==> BeforeClosing(e)
    decreases |counts|
  {
    if counts != [] {
      var n := |counts|;
      var init := counts[..n - 1];
      LoopBeforeClosing(init, cfg, raising);
      StepBeforeClosing(n, counts[n - 1], cfg, n in raising);
    }
  }

  /** A stopped loop stays stopped: what comes after the first raising iteration is never run. */
  lemma {:induction false} LoopStoppedSticks(counts: seq<nat>, m: nat, cfg: Config, raising: set<nat>)
    requires m <= |counts| && !Loop(counts[..m], cfg, raising).running
    ensures Loop(counts, cfg, raising) == Loop(counts[..m], cfg, raising)
    decreases |counts|
  {
    if m < |counts| {
      var init := counts[..|counts| - 1];
      assert init[..m] == counts[..m];
      LoopStoppedSticks(init, m, cfg, raising);
    } else {
      assert counts[..m] == counts;
    }
  }

  /** When layer `k` is the first whose ironing raises, the script's events are the earlier
      layers' iterations and layer `k` up to its failing generation, which is the last event. */
  lemma RunStopsAt(counts: seq<nat>, cfg: Config, raising: set<nat>, k: nat)
    requires 1 <= k <= |counts| && Stops(counts[k - 1], cfg, k in raising)
    requires NoneRaise(counts[..k - 1], cfg, raising)
    ensures Run(counts, cfg, raising) == Preamble + LoopEvents(counts[..k - 1], cfg)
      + [Send(Layer(k)), Capture(k, false), Send(Support(k)), Write(LayerLine(k, counts[k - 1], true)),
         Generate(Ironing(k), FixingExtrusionRatio, FixingSpeedRatio)]
  {
    var before := counts[..k];
    assert before[..k - 1] == counts[..k - 1];
    LoopReturning(counts[..k - 1], cfg, raising);
    assert !Loop(before, cfg, raising).running;
    LoopStoppedSticks(counts, k, cfg, raising);
  }

  /** The end file is sent, and the summary written, exactly when no iteration raised; the run is
      then `Workflow`. */
  lemma RunCloses(counts: seq<nat>, cfg: Config, raising: set<nat>)
    ensures Send(End) in Run(counts, cfg, raising) <==> NoneRaise(counts, cfg, raising)
    ensures NoneRaise(counts, cfg, raising) ==> Run(counts, cfg, raising) == Workflow(counts, cfg)
    ensures !NoneRaise(counts, cfg, raising) ==>
      forall e :: e in Run(counts, cfg, raising) ==> !(e.Write? && (e.entry.Total? || e.entry.FixedList?))
  {
    LoopRunning(counts, cfg, raising);
    LoopBeforeClosing(counts, cfg, raising);
    if NoneRaise(counts, cfg, raising) {
      LoopReturning(counts, cfg, raising);
    }
    assert Send(End) !in Preamble;
  }

  /** The body of the loop for layer `i`: print it, photograph it, print its support, log the
      count and, for a fixed layer with correction enabled, iron it; `ironFails` says whether
      `generate_iron_layer` raises on the layer's file, which ends the script. */
  method ProcessLayer(i: nat, count: nat, cfg: Config, ironFails: bool) returns (events: seq<Event>, fixed: bool, raised: bool)
    ensures events == StepEvents(i, count, cfg, ironFails)
    ensures !ironFails ==> events == LayerEvents(i, count, cfg)
    ensures fixed == Fixed(count, cfg)
    ensures raised == Stops(count, cfg, ironFails)
  {
    raised := false;
    events := [Send(Layer(i)), Capture(i, false)];
    events := events + [Send(Support(i))];
    if count < cfg.defectThreshold {
      fixed := false;
      events := events + [Write(LayerLine(i, count, false))];
    } else {
      fixed := true;
      events := events + [Write(LayerLine(i, count, true))];
      if cfg.enableCorrection {
        events := events + [Generate(Ironing(i), FixingExtrusionRatio, FixingSpeedRatio)];
        if ironFails {
          raised := true;
          return;
        }
        events := events + [Send(Ironing(i))];
        events := events + [Capture(i, true), Generate(SupportIroning(i), FixingExtrusionRatio, 1.0)];
        events := events + [Send(Support(i))];
      }
    }
  }

  /** The script from the log header to the summary, or to the iteration whose ironing raises. */
  method RunWorkflow(counts: seq<nat>, cfg: Config, raising: set<nat>) returns (trace: seq<Event>, fixedLayers: seq<nat>)
    ensures trace == Run(counts, cfg, raising)
    ensures fixedLayers == Loop(counts, cfg, raising).fixed
    ensures NoneRaise(counts, cfg, raising) ==> trace == Workflow(counts, cfg) && fixedLayers == FixedLayers(counts, cfg)
  {
    var events: seq<Event> := [];
    fixedLayers := [];
    var running := true;
    var i := 1;
    while i <= |counts| && running
      invariant 1 <= i <= |counts| + 1
      invariant Loop(counts[..i - 1], cfg, raising) == LoopState(events, fixedLayers, running)
    {
      var step, fixed, raised := ProcessLayer(i, counts[i - 1], cfg, i in raising);
      assert counts[..i][..i - 1] == counts[..i - 1];
      events := events + step;
      if fixed {
        fixedLayers := fixedLayers + [i];
      }
      running := !raised;
      i := i + 1;
    }
    if running {
      assert counts[..|counts|] == counts;
    } else {
      LoopStoppedSticks(counts, i - 1, cfg, raising);
    }
    trace := Preamble + events + (if running then Closing(fixedLayers) else []);
    if NoneRaise(counts, cfg, raising) {
      LoopReturning(counts, cfg, raising);
    }
  }

  // ---------------------------------------------------------------------------------------
  // Views of a trace

  /** The items `pick` selects from the events, in order. */
  function Picks<T>(t: seq<Event>, pick: Event -> Option<T>): seq<T> {
    if t == [] then []
    else Picks(t[..|t| - 1], pick) + (if pick(t[|t| - 1]).Some? then [pick(t[|t| - 1]).value] else [])
  }

  lemma {:induction false} PicksAppend<T>(a: seq<Event>, b: seq<Event>, pick: Event -> Option<T>)
    ensures Picks(a + b, pick) == Picks(a, pick) + Picks(b, pick)
    decreases |b|
  {
    if b == [] {
      assert a + b == a;
    } else {
      assert (a + b)[..|a + b| - 1] == a + b[..|b| - 1];
      PicksAppend(a, b[..|b| - 1], pick);
    }
  }

  function SentFile(e: Event): Option<File> {
    if e.Send? then Some(e.file) else None
  }

  function LoggedEntry(e: Event): Option<Entry> {
    if e.Write? then Some(e.entry) else None
  }

  function SentLayer(e: Event): Option<nat> {
    if e.Send? && e.file.Layer? then Some(e.file.layer) else None
  }

  /** The files sent to the printer, in order. */
  function Sends(t: seq<Event>): seq<File> {
    Picks(t, SentFile)
  }

  /** The log file's entries, in order. */
  function Log(t: seq<Event>): seq<Entry> {
    Picks(t, LoggedEntry)
  }

  /** Picking from four events. */
  lemma PicksFour<T>(a: Event, b: Event, c: Event, d: Event, pick: Event -> Option<T>)
    ensures Picks([a, b, c, d], pick) == Picks([a], pick) + Picks([b], pick) + Picks([c], pick) + Picks([d], pick)
  {
    PicksAppend([a], [b], pick);
    PicksAppend([a, b], [c], pick);
    PicksAppend([a, b, c], [d], pick);
    assert [a] + [b] == [a, b] && [a, b] + [c] == [a, b, c] && [a, b, c] + [d] == [a, b, c, d];
  }

  lemma PicksOne<T>(e: Event, pick: Event -> Option<T>)
    ensures Picks([e], pick) == if pick(e).Some? then [pick(e).value] else []
  {
    assert [e][..0] == [];
  }

  /** Picking from one iteration, event by event. */
  lemma LayerPicks<T>(i: nat, count: nat, cfg: Config, pick: Event -> Option<T>)
    ensures Picks(LayerEvents(i, count, cfg), pick)
      == Picks([Send(Layer(i))], pick) + Picks([Capture(i, false)], pick) + Picks([Send(Support(i))], pick)
         + Picks([Write(LayerLine(i, count, Fixed(count, cfg)))], pick)
         + (if Fixed(count, cfg) && cfg.enableCorrection then Picks(Correction(i), pick) else [])
  {
    var head := [Send(Layer(i)), Capture(i, false), Send(Support(i)), Write(LayerLine(i, count, Fixed(count, cfg)))];
    PicksFour(head[0], head[1], head[2], head[3], pick);
    var tail := if Fixed(count, cfg) && cfg.enableCorrection then Correction(i) else [];
    PicksAppend(head, tail, pick);
    if tail == [] {
      assert Picks(tail, pick) == [];
    }
  }

  /** Picking from the correction, event by event. */
  lemma CorrectionPicks<T>(i: nat, pick: Event -> Option<T>)
    ensures Picks(Correction(i), pick)
      == Picks([Generate(Ironing(i), FixingExtrusionRatio, FixingSpeedRatio)], pick) + Picks([Send(Ironing(i))], pick)
         + Picks([Capture(i, true)], pick) + Picks([Generate(SupportIroning(i), FixingExtrusionRatio, 1.0)], pick)
         + Picks([Send(Support(i))], pick)
  {
    var c := Correction(i);
    assert c[..4] + c[4..] == c;
    assert c[..4] == [c[0], c[1], c[2], c[3]];
    assert c[4..] == [c[4]];
    PicksAppend(c[..4], c[4..], pick);
    PicksFour(c[0], c[1], c[2], c[3], pick);
  }

  /** What one iteration sends: the layer, then its support; for a fixed layer with correction
      enabled, then the ironing file and the support file once more. */
  lemma LayerSends(i: nat, count: nat, cfg: Config)
    ensures Sends(LayerEvents(i, count, cfg))
      == [Layer(i), Support(i)] + (if Fixed(count, cfg) && cfg.enableCorrection then [Ironing(i), Support(i)] else [])
  {
    LayerPicks(i, count, cfg, SentFile);
    CorrectionPicks(i, SentFile);
    PicksOne(Send(Layer(i)), SentFile);
    PicksOne(Capture(i, false), SentFile);
    PicksOne(Send(Support(i)), SentFile);
    PicksOne(Write(LayerLine(i, count, Fixed(count, cfg))), SentFile);
    PicksOne(Generate(Ironing(i), FixingExtrusionRatio, FixingSpeedRatio), SentFile);
    PicksOne(Send(Ironing(i)), SentFile);
    PicksOne(Capture(i, true), SentFile);
    PicksOne(Generate(SupportIroning(i), FixingExtrusionRatio, 1.0), SentFile);
  }

  /** One iteration writes one log line, whatever the correction setting. */
  lemma LayerLog(i: nat, count: nat, cfg: Config)
    ensures Log(LayerEvents(i, count, cfg)) == [LayerLine(i, count, Fixed(count, cfg))]
  {
    LayerPicks(i, count, cfg, LoggedEntry);
    CorrectionPicks(i, LoggedEntry);
    PicksOne(Send(Layer(i)), LoggedEntry);
    PicksOne(Capture(i, false), LoggedEntry);
    PicksOne(Send(Support(i)), LoggedEntry);
    PicksOne(Write(LayerLine(i, count, Fixed(count, cfg))), LoggedEntry);
    PicksOne(Generate(Ironing(i), FixingExtrusionRatio, FixingSpeedRatio), LoggedEntry);
    PicksOne(Send(Ironing(i)), LoggedEntry);
    PicksOne(Capture(i, true), LoggedEntry);
    PicksOne(Generate(SupportIroning(i), FixingExtrusionRatio, 1.0), LoggedEntry);
  }

  /** One iteration prints its own layer file once. */
  lemma LayerPrinted(i: nat, count: nat, cfg: Config)
    ensures Picks(LayerEvents(i, count, cfg), SentLayer) == [i]
  {
    LayerPicks(i, count, cfg, SentLayer);
    CorrectionPicks(i, SentLayer);
    PicksOne(Send(Layer(i)), SentLayer);
    PicksOne(Capture(i, false), SentLayer);
    PicksOne(Send(Support(i)), SentLayer);
    PicksOne(Write(LayerLine(i, count, Fixed(count, cfg))), SentLayer);
    PicksOne(Generate(Ironing(i), FixingExtrusionRatio, FixingSpeedRatio), SentLayer);
    PicksOne(Send(Ironing(i)), SentLayer);
    PicksOne(Capture(i, true), SentLayer);
    PicksOne(Generate(SupportIroning(i), FixingExtrusionRatio, 1.0), SentLayer);
  }

  // ---------------------------------------------------------------------------------------
  // The whole run

  /** The log line of each layer, in layer order. */
  function LayerLines(counts: seq<nat>, cfg: Config): (r: seq<Entry>)
    ensures |r| == |counts|
  {
    seq(|counts|, k requires 0 <= k < |counts| => LayerLine(k + 1, counts[k], Fixed(counts[k], cfg)))
  }

  lemma {:induction false} LoopLog(counts: seq<nat>, cfg: Config)
    ensures Log(LoopEvents(counts, cfg)) == LayerLines(counts, cfg)
    decreases |counts|
  {
    if counts != [] {
      var n := |counts|;
      var init := counts[..n - 1];
      LoopLog(init, cfg);
      PicksAppend(LoopEvents(init, cfg), LayerEvents(n, counts[n - 1], cfg), LoggedEntry);
      LayerLog(n, counts[n - 1], cfg);
      var lines := LayerLines(init, cfg) + [LayerLine(n, counts[n - 1], Fixed(counts[n - 1], cfg))];
      forall k | 0 <= k < n
        ensures lines[k] == LayerLines(counts, cfg)[k]
      {
        if k < n - 1 {
          assert init[k] == counts[k];
        }
      }
      assert lines == LayerLines(counts, cfg);
    }
  }

  lemma {:induction false} LoopPrinted(counts: seq<nat>, cfg: Config)
    ensures Picks(LoopEvents(counts, cfg), SentLayer) == seq(|counts|, k => k + 1)
    decreases |counts|
  {
    if counts != [] {
      var n := |counts|;
      var init := counts[..n - 1];
      LoopPrinted(init, cfg);
      PicksAppend(LoopEvents(init, cfg), LayerEvents(n, counts[n - 1], cfg), SentLayer);
      LayerPrinted(n, counts[n - 1], cfg);
      assert seq(n - 1, k => k + 1) + [n] == seq(n, k => k + 1);
    }
  }

  lemma {:induction false} LoopSends(counts: seq<nat>, cfg: Config)
    ensures Setup !in Sends(LoopEvents(counts, cfg)) && End !in Sends(LoopEvents(counts, cfg))
    decreases |counts|
  {
    if counts != [] {
      var n := |counts|;
      var init := counts[..n - 1];
      LoopSends(init, cfg);
      PicksAppend(LoopEvents(init, cfg), LayerEvents(n, counts[n - 1], cfg), SentFile);
      LayerSends(n, counts[n - 1], cfg);
    }
  }

  /** The run's view through `pick`: the preamble's, the loop's, then the closing's. */
  lemma WorkflowPicks<T>(counts: seq<nat>, cfg: Config, pick: Event -> Option<T>)
    ensures Picks(Workflow(counts, cfg), pick)
      == Picks(Preamble, pick) + Picks(LoopEvents(counts, cfg), pick) + Picks(Closing(FixedLayers(counts, cfg)), pick)
  {
    PicksAppend(Preamble + LoopEvents(counts, cfg), Closing(FixedLayers(counts, cfg)), pick);
    PicksAppend(Preamble, LoopEvents(counts, cfg), pick);
  }

  lemma PreambleViews()
    ensures Sends(Preamble) == [Setup] && Log(Preamble) == [Header] && Picks(Preamble, SentLayer) == []
  {
    PicksFour(Write(Header), SplitLayers, AddCameraMoves, Send(Setup), SentFile);
    PicksFour(Write(Header), SplitLayers, AddCameraMoves, Send(Setup), LoggedEntry);
    PicksFour(Write(Header), SplitLayers, AddCameraMoves, Send(Setup), SentLayer);
    PicksOne(Write(Header), SentFile);
    PicksOne(SplitLayers, SentFile);
    PicksOne(AddCameraMoves, SentFile);
    PicksOne(Send(Setup), SentFile);
    PicksOne(Write(Header), LoggedEntry);
    PicksOne(SplitLayers, LoggedEntry);
    PicksOne(AddCameraMoves, LoggedEntry);
    PicksOne(Send(Setup), LoggedEntry);
    PicksOne(Write(Header), SentLayer);
    PicksOne(SplitLayers, SentLayer);
    PicksOne(AddCameraMoves, SentLayer);
    PicksOne(Send(Setup), SentLayer);
  }

  lemma ClosingViews(f: seq<nat>)
    ensures Sends(Closing(f)) == [End] && Log(Closing(f)) == [Total(|f|), FixedList(f)]
    ensures Picks(Closing(f), SentLayer) == []
  {
    ClosingPicks(f, SentFile);
    ClosingPicks(f, LoggedEntry);
    ClosingPicks(f, SentLayer);
    PicksOne(Send(End), SentFile);
    PicksOne(Write(Total(|f|)), SentFile);
    PicksOne(Write(FixedList(f)), SentFile);
    PicksOne(Send(End), LoggedEntry);
    PicksOne(Write(Total(|f|)), LoggedEntry);
    PicksOne(Write(FixedList(f)), LoggedEntry);
    PicksOne(Send(End), SentLayer);
    PicksOne(Write(Total(|f|)), SentLayer);
    PicksOne(Write(FixedList(f)), SentLayer);
  }

  /** The log starts with the header, has one line per layer in layer order, marked fixed iff the
      layer's count reaches the threshold, and ends with the number of fixed layers and their
      list. */
  lemma WorkflowLog(counts: seq<nat>, cfg: Config)
    ensures Log(Workflow(counts, cfg))
      == [Header] + LayerLines(counts, cfg) + [Total(|FixedLayers(counts, cfg)|), FixedList(FixedLayers(counts, cfg))]
  {
    WorkflowPicks(counts, cfg, LoggedEntry);
    PreambleViews();
    ClosingViews(FixedLayers(counts, cfg));
    LoopLog(counts, cfg);
  }

  /** The log does not depend on whether correction is enabled. */
  lemma LogIgnoresCorrection(counts: seq<nat>, cfg: Config)
    ensures Log(Workflow(counts, cfg)) == Log(Workflow(counts, cfg.(enableCorrection := !cfg.enableCorrection)))
  {
    var other := cfg.(enableCorrection := !cfg.enableCorrection);
    WorkflowLog(counts, cfg);
    WorkflowLog(counts, other);
    FixedLayersIgnoreCorrection(counts, cfg, other);
    assert LayerLines(counts, cfg) == LayerLines(counts, other);
  }

  lemma {:induction false} FixedLayersIgnoreCorrection(counts: seq<nat>, a: Config, b: Config)
    requires a.defectThreshold == b.defectThreshold
    ensures FixedLayers(counts, a) == FixedLayers(counts, b)
    decreases |counts|
  {
    if counts != [] {
      FixedLayersIgnoreCorrection(counts[..|counts| - 1], a, b);
    }
  }

  lemma ClosingPicks<T>(fixed: seq<nat>, pick: Event -> Option<T>)
    ensures Picks(Closing(fixed), pick)
      == Picks([Send(End)], pick) + Picks([Write(Total(|fixed|))], pick) + Picks([Write(FixedList(fixed))], pick)
  {
    var c := Closing(fixed);
    PicksAppend([c[0], c[1]], [c[2]], pick);
    PicksAppend([c[0]], [c[1]], pick);
    assert [c[0]] + [c[1]] == [c[0], c[1]];
    assert [c[0], c[1]] + [c[2]] == c;
  }

  /** The printer gets the setup file first and the end file last, each exactly once, and in
      between only what the layer iterations send. */
  lemma WorkflowSends(counts: seq<nat>, cfg: Config)
    ensures Sends(Workflow(counts, cfg)) == [Setup] + Sends(LoopEvents(counts, cfg)) + [End]
    ensures Setup !in Sends(LoopEvents(counts, cfg)) && End !in Sends(LoopEvents(counts, cfg))
  {
    WorkflowPicks(counts, cfg, SentFile);
    PreambleViews();
    ClosingViews(FixedLayers(counts, cfg));
    LoopSends(counts, cfg);
  }

  /** The header is the first event and the setup file is sent before any other file. */
  lemma WorkflowStart(counts: seq<nat>, cfg: Config)
    ensures var t := Workflow(counts, cfg);
      t[0] == Write(Header) && t[3] == Send(Setup)
      && forall k :: 0 <= k < |t| && t[k].Send? && t[k].file != Setup ==> k > 3
  {
  }

  /** Layers 1 .. |counts| are printed once each, in increasing order. */
  lemma WorkflowPrintsEachLayerOnce(counts: seq<nat>, cfg: Config)
    ensures Picks(Workflow(counts, cfg), SentLayer) == seq(|counts|, k => k + 1)
  {
    WorkflowPicks(counts, cfg, SentLayer);
    PreambleViews();
    ClosingViews(FixedLayers(counts, cfg));
    LoopPrinted(counts, cfg);
  }

  /** `fixed_layer_list` holds exactly the layers whose count reaches the threshold, in strictly
      increasing order. */
  lemma {:induction false} FixedLayersMeaning(counts: seq<nat>, cfg: Config)
    ensures forall i :: i in FixedLayers(counts, cfg) <==> 1 <= i <= |counts| && Fixed(counts[i - 1], cfg)
    ensures forall a, b :: 0 <= a < b < |FixedLayers(counts, cfg)| ==> FixedLayers(counts, cfg)[a] < FixedLayers(counts, cfg)[b]
    decreases |counts|
  {
    if counts != [] {
      var n := |counts|;
      var init := counts[..n - 1];
      FixedLayersMeaning(init, cfg);
      forall k | 0 <= k < n - 1
        ensures init[k] == counts[k]
      {
      }
      var prev := FixedLayers(init, cfg);
      if Fixed(counts[n - 1], cfg) {
        var all := prev + [n];
        assert all == FixedLayers(counts, cfg);
        forall a, b | 0 <= a < b < |all|
          ensures all[a] < all[b]
        {
          if b == |prev| {
            assert all[a] in prev;
          }
        }
      }
    }
  }

  /** Layer `i` is ironed exactly when correction is enabled and its count reaches the threshold;
      with correction disabled there is no ironing, no second photo and no ironing file. */
  lemma {:induction false} LoopIroning(counts: seq<nat>, cfg: Config, i: nat)
    ensures Send(Ironing(i)) in LoopEvents(counts, cfg)
      <==> cfg.enableCorrection && 1 <= i <= |counts| && Fixed(counts[i - 1], cfg)
    ensures !cfg.enableCorrection ==> forall e :: e in LoopEvents(counts, cfg) ==> !e.Generate? && !(e.Capture? && e.corrected)
    decreases |counts|
  {
    if counts != [] {
      var n := |counts|;
      var init := counts[..n - 1];
      LoopIroning(init, cfg, i);
      assert LoopEvents(counts, cfg) == LoopEvents(init, cfg) + LayerEvents(n, counts[n - 1], cfg);
      if 1 <= i < n {
        assert counts[i - 1] == init[i - 1];
      }
    }
  }

  /** The correction branch happens exactly for the fixed layers and only when enabled. */
  lemma WorkflowIroning(counts: seq<nat>, cfg: Config, i: nat)
    ensures Send(Ironing(i)) in Workflow(counts, cfg)
      <==> cfg.enableCorrection && 1 <= i <= |counts| && Fixed(counts[i - 1], cfg)
    ensures !cfg.enableCorrection ==> forall e :: e in Workflow(counts, cfg) ==> !e.Generate? && !(e.Capture? && e.corrected)
  {
    LoopIroning(counts, cfg, i);
  }

  /** Three layers with 0, 3 and 1 defects and a threshold of 2: layers 1 to 3 are logged with
      only layer 2 fixed, and the summary reports one fixed layer, [2]. */
  lemma SummaryExample(enableCorrection: bool)
    ensures var cfg := Config(2, enableCorrection);
      LayerLines([0, 3, 1], cfg) == [LayerLine(1, 0, false), LayerLine(2, 3, true), LayerLine(3, 1, false)]
      && FixedLayers([0, 3, 1], cfg) == [2]
      && Closing(FixedLayers([0, 3, 1], cfg)) == [Send(End), Write(Total(1)), Write(FixedList([2]))]
  {
    var cfg := Config(2, enableCorrection);
    assert [0, 3, 1][..2] == [0, 3];
    assert [0, 3][..1] == [0];
    assert [0][..0] == [];
    assert FixedLayers([0], cfg) == [];
    assert FixedLayers([0, 3], cfg) == [2];
  }

  // ---------------------------------------------------------------------------------------
  // Log text

  /** The text of a layer's log line. */
  function LayerLineText(layer: nat, defects: nat, fixed: bool): string {
    "layer " + FormatNat(layer) + ", num of defect: " + FormatNat(defects) + (if fixed then " FIXED" else "") + "\n"
  }

  /** A line ends in " FIXED" exactly when the layer was fixed. */
  lemma LayerLineMarked(layer: nat, defects: nat, fixed: bool)
    ensures EndsWith(LayerLineText(layer, defects, fixed), " FIXED\n") <==> fixed
  {
    var t := LayerLineText(layer, defects, fixed);
    var body := "layer " + FormatNat(layer) + ", num of defect: " + FormatNat(defects);
    if fixed {
      assert t == body + " FIXED\n";
    } else {
      assert t == body + "\n";
      assert t[|t| - 2] == FormatNat(defects)[|FormatNat(defects)| - 1];
      assert IsDigit(t[|t| - 2]);
      assert t[|t| - 2] != " FIXED\n"[5];
    }
  }

  /** Python's rendering of a list of integers. */
  function ListText(xs: seq<nat>): string {
    "[" + Items(xs) + "]"
  }

  function Items(xs: seq<nat>): string {
    if xs == [] then ""
    else if |xs| == 1 then FormatNat(xs[0])
    else FormatNat(xs[0]) + ", " + Items(xs[1..])
  }

  /** The two summary lines. */
  function SummaryText(fixed: seq<nat>): string {
    "TOTAL NUM OF FIXED LAYER: " + FormatNat(|fixed|) + "\n" + "Fixed layer list: " + ListText(fixed)
  }

  lemma SummaryTextExample()
    ensures SummaryText([2]) == "TOTAL NUM OF FIXED LAYER: 1\nFixed layer list: [2]"
  {
    var count, list := "TOTAL NUM OF FIXED LAYER: 1\n", "Fixed layer list: [2]";
    assert FormatNat(1) == "1";
    assert FormatNat(2) == "2";
    assert "TOTAL NUM OF FIXED LAYER: " + FormatNat(|[2]|) + "\n" == count;
    assert "Fixed layer list: " + ListText([2]) == list;
    assert count + list == "TOTAL NUM OF FIXED LAYER: 1\nFixed layer list: [2]";
  }
}
