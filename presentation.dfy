/**
 * The presentation driver of visual_stim: stop_signal, the start, inter and
 * end screens, the four frame loops, single_episode_run and run.  Rendering
 * is an event in a log; the key queue and the vsync-locked clock are inputs.
 */
module Presentation {
  import opened Wrappers
  import opened Values
  import opened Pulse

  /** The four presentation loops. */
  datatype Loop = StaticLoop | DriftingLoop | ImageLoop | SequenceLoop

  /** What the screen and the console show, in order. */
  datatype Event =
    | StartShown(wait: real)                        // blank_start and the off square, then the prestim wait
    | InterShown(after: nat, color: Value, wait: real)  // the inter-stimulus blank after an episode
    | EndShown(wait: real)                          // blank_end and the off square, then the poststim wait
    | EpisodeStarted(index: nat)                    // the "Running protocol of index" line
    | FrameShown(episode: nat, loop: Loop, squareOn: bool, phase: PhaseMove)
    | FrameStored                                   // getMovieFrame
    | StatusMessage(text: string)
    | FramesSaved                                   // saveMovieFrames at the end of run
    | Raised(error: Error)                          // an exception leaves run; nothing after it is shown

  /**
   * The setPhase call of a frame: none, or an advance by speed times the
   * clock time elapsed since the previous frame's reading.
   */
  datatype PhaseMove = Still | Advance(speed: real, elapsed: real)

  /** The phase added by a move. */
  function Amount(m: PhaseMove): real
  {
    match m
    case Still => 0.0
    case Advance(speed, elapsed) => speed * elapsed
  }

  /** What each episode's loops read from the schedule. */
  datatype Episode = Episode(duration: real, runType: string, speed: real, interstim: real, interstimScreen: Value)

  /**
   * The driver's fixed inputs: which key polls find a pending key, whether
   * the parent has a status bar, whether the protocol has an interstim
   * screen, whether frames are stored, the frame period of the display and
   * the pre/post-stimulus waits.  Only the clock is constrained: the
   * monitoring timing may be any, and a modulo by zero then raises.
   */
  datatype Config = Config(
    keys: seq<bool>, hasStatusBar: bool, hasBlankInter: bool, storeFrame: bool,
    framePeriod: real, prestim: real, poststim: real, monitoring: Monitoring)
  {
    predicate Valid() { framePeriod > 0.0 }

    /** event.getKeys() is non-empty at poll n. */
    predicate KeyAt(n: nat) { n < |keys| && keys[n] }
  }

  /** Lines 404-411: the loop a frame_run_type selects; anything unknown runs the static loop. */
  function LoopFor(runType: string): (l: Loop)
    ensures l == DriftingLoop <==> runType == "drifting"
    ensures l == ImageLoop <==> runType == "image"
    ensures l == SequenceLoop <==> runType == "images_sequence"
    ensures runType !in {"drifting", "image", "images_sequence"} ==> l == StaticLoop
  {
    if runType == "drifting" then DriftingLoop
    else if runType == "image" then ImageLoop
    else if runType == "images_sequence" then SequenceLoop
    else StaticLoop
  }

  // ---------------------------------------------------------------------
  // Frames of one episode
  // ---------------------------------------------------------------------

  /** The smallest integer at or above x. */
  function Ceil(x: real): (c: int)
    ensures c as real - 1.0 < x <= c as real
  {
    -((-x).Floor)
  }

  /** The number of frames f >= 0 whose clock reading f * period lies before the duration. */
  function FrameCount(duration: real, period: real): (n: nat)
    requires period > 0.0
  {
    if duration <= 0.0 then 0 else Ceil(duration / period)
  }

  /** The loop condition holds at frame f exactly while f is below the frame count. */
  lemma {:induction false} FrameCountSpec(duration: real, period: real, f: nat)
    requires period > 0.0
    ensures f < FrameCount(duration, period) <==> (f as real) * period < duration
  {
    if duration > 0.0 {
      var x := duration / period;
      assert duration == x * period;
      if f < Ceil(x) {
        assert (f as real) <= Ceil(x) as real - 1.0 < x;
        ScaleStrict(f as real, x, period);
      } else {
        assert x <= f as real;
        ScaleWeak(x, f as real, period);
      }
    }
  }

  /**
   * The clock reading at frame f, counted from the start of the loop: the
   * display is vsync-locked, so each flip adds one frame period.
   */
  function Clock(cfg: Config, f: nat): real
  {
    if f == 0 then 0.0 else Clock(cfg, f - 1) + cfg.framePeriod
  }

  /** The reading at frame f is f frame periods. */
  lemma {:induction false} ClockReading(cfg: Config, f: nat)
    ensures Clock(cfg, f) == (f as real) * cfg.framePeriod
  {
    if f > 0 {
      ClockReading(cfg, f - 1);
    }
  }

  /** The loop test (clock - start) < duration holds at frame f exactly while f is below the frame count. */
  lemma {:induction false} LoopTest(cfg: Config, duration: real, f: nat)
    requires cfg.Valid()
    ensures f < FrameCount(duration, cfg.framePeriod) <==> Clock(cfg, f) < duration
  {
    ClockReading(cfg, f);
    FrameCountSpec(duration, cfg.framePeriod, f);
  }

  /** The milliseconds elapsed at frame f. */
  function FrameMs(cfg: Config, f: nat): int
  {
    ElapsedMs(Clock(cfg, f), 0.0)
  }

  /**
   * The monitoring square a loop draws at frame f, before the flip: the
   * inline copy (static loop, lines 336-341), add_monitoring_signal_sp (the
   * array loop) or add_monitoring_signal (the others).  A modulo by zero
   * raises before the frame is shown.
   */
  function FramePulse(cfg: Config, loop: Loop, f: nat): (r: Result<bool>)
    ensures loop == ImageLoop ==> r.Success?
    ensures r.Failure? ==> r.error == ZeroDivision
  {
    var dt := FrameMs(cfg, f);
    match loop
    case StaticLoop => InlinePulseOn(cfg.monitoring, dt, dt, dt)
    case ImageLoop => Success(SinglePulseOn(cfg.monitoring, dt))
    case _ => PulseOn(cfg.monitoring, dt)
  }

  /** Every frame of the episode's loop before frame n draws its square without raising. */
  predicate PulsesUpTo(cfg: Config, ep: Episode, n: nat)
  {
    forall f :: 0 <= f < n ==> FramePulse(cfg, LoopFor(ep.runType), f).Success?
  }

  /** The first of n frames whose square raises, or n when none does. */
  function RaisingFrame(cfg: Config, ep: Episode, n: nat): (k: nat)
    ensures k <= n && PulsesUpTo(cfg, ep, k)
    ensures k < n ==> FramePulse(cfg, LoopFor(ep.runType), k).Failure?
  {
    RaisingFrameFrom(cfg, ep, n, 0)
  }

  function RaisingFrameFrom(cfg: Config, ep: Episode, n: nat, f: nat): (k: nat)
    requires f <= n && PulsesUpTo(cfg, ep, f)
    ensures f <= k <= n && PulsesUpTo(cfg, ep, k)
    ensures k < n ==> FramePulse(cfg, LoopFor(ep.runType), k).Failure?
    decreases n - f
  {
    if f == n || FramePulse(cfg, LoopFor(ep.runType), f).Failure? then f
    else RaisingFrameFrom(cfg, ep, n, f + 1)
  }

  /** A frame that fails after only frames that drew is the raising one. */
  lemma {:induction false} RaisingFrameExact(cfg: Config, ep: Episode, n: nat, f: nat)
    requires f <= n && PulsesUpTo(cfg, ep, f)
    requires f < n ==> FramePulse(cfg, LoopFor(ep.runType), f).Failure?
    ensures RaisingFrame(cfg, ep, n) == f
  {
    RaisingFrameFromExact(cfg, ep, n, f, 0);
  }

  lemma {:induction false} RaisingFrameFromExact(cfg: Config, ep: Episode, n: nat, f: nat, g: nat)
    requires g <= f <= n && PulsesUpTo(cfg, ep, f)
    requires f < n ==> FramePulse(cfg, LoopFor(ep.runType), f).Failure?
    ensures RaisingFrameFrom(cfg, ep, n, g) == f
    decreases f - g
  {
    if g < f {
      assert FramePulse(cfg, LoopFor(ep.runType), g).Success?;
      RaisingFrameFromExact(cfg, ep, n, f, g + 1);
    }
  }

  /** With Tfull_first > 0 no frame of any loop raises. */
  lemma {:induction false} ValidNeverRaises(cfg: Config, ep: Episode, n: nat)
    requires cfg.monitoring.Valid()
    ensures RaisingFrame(cfg, ep, n) == n
  {
    forall f | 0 <= f < n
      ensures FramePulse(cfg, LoopFor(ep.runType), f).Success?
    {
      ValidNeverFails(cfg.monitoring, FrameMs(cfg, f));
      InlineAgrees(cfg.monitoring, FrameMs(cfg, f));
    }
    RaisingFrameExact(cfg, ep, n, n);
  }

  /** The array loop takes no modulo: an image episode never raises, whatever the timing. */
  lemma {:induction false} ImageNeverRaises(cfg: Config, ep: Episode, n: nat)
    requires LoopFor(ep.runType) == ImageLoop
    ensures RaisingFrame(cfg, ep, n) == n
  {
    RaisingFrameExact(cfg, ep, n, n);
  }

  /**
   * With int((Ton+Toff)/2) == 0 and Ton + Toff >= 0 (time-on and time-off
   * under 2 ms together) the static, drifting and sequence loops raise
   * ZeroDivisionError on their first frame, where the elapsed time is 0.
   */
  lemma {:induction false} FirstFrameRaises(cfg: Config, ep: Episode, n: nat)
    requires cfg.monitoring.TfullFirst() == 0 && cfg.monitoring.Tfull() >= 0
    requires LoopFor(ep.runType) != ImageLoop && n > 0
    ensures RaisingFrame(cfg, ep, n) == 0
  {
    assert FrameMs(cfg, 0) == Trunc(0.0) == 0;
    RaisingFrameExact(cfg, ep, n, 0);
  }

  /** The reading prev_t holds at frame f: the start reading, then the previous frame's. */
  function PrevReading(cfg: Config, f: nat): real
  {
    if f == 0 then 0.0 else Clock(cfg, f - 1)
  }

  /** The drifting loop advances the phase by speed * (new_t - prev_t); the other loops leave it. */
  function PhaseStep(cfg: Config, loop: Loop, speed: real, f: nat): PhaseMove
  {
    if loop != DriftingLoop then Still
    else Advance(speed, Clock(cfg, f) - PrevReading(cfg, f))
  }

  /** Each drifting frame after the first advances over exactly one frame period; the first over none. */
  lemma {:induction false} DriftingStep(cfg: Config, speed: real, f: nat)
    ensures PhaseStep(cfg, DriftingLoop, speed, f) == Advance(speed, if f == 0 then 0.0 else cfg.framePeriod)
  {
  }

  /** Frame f of episode i as the flip shows it: the loop, its square and its phase move. */
  function FrameAt(cfg: Config, i: nat, ep: Episode, f: nat): Event
    requires FramePulse(cfg, LoopFor(ep.runType), f).Success?
  {
    var loop := LoopFor(ep.runType);
    FrameShown(i, loop, FramePulse(cfg, loop, f).value, PhaseStep(cfg, loop, ep.speed, f))
  }

  /** The first n frames of episode i, one per turn of the loop. */
  function Frames(cfg: Config, i: nat, ep: Episode, n: nat): (r: seq<Event>)
    requires PulsesUpTo(cfg, ep, n)
    ensures |r| == n
  {
    if n == 0 then [] else Frames(cfg, i, ep, n - 1) + [FrameAt(cfg, i, ep, n - 1)]
  }

  /** Entry f of the frames is frame f. */
  lemma {:induction false} FrameIndex(cfg: Config, i: nat, ep: Episode, n: nat, f: nat)
    requires PulsesUpTo(cfg, ep, n) && f < n
    ensures Frames(cfg, i, ep, n)[f] == FrameAt(cfg, i, ep, f)
  {
    if f < n - 1 {
      FrameIndex(cfg, i, ep, n - 1, f);
    }
  }

  /** What the loop has shown after one more frame e. */
  lemma {:induction false} Extended<T>(a: seq<T>, b: seq<T>, e: T, c: seq<T>)
    requires c == b + [e]
    ensures a + b + [e] == a + c
  {
  }

  /** Under a valid timing a static frame shows the inline pulse on three equal readings. */
  lemma {:induction false} StaticFrame(cfg: Config, i: nat, ep: Episode, f: nat)
    requires cfg.monitoring.Valid() && LoopFor(ep.runType) == StaticLoop
    ensures InlinePulseOn(cfg.monitoring, FrameMs(cfg, f), FrameMs(cfg, f), FrameMs(cfg, f)).Success?
    ensures FrameAt(cfg, i, ep, f) ==
      FrameShown(i, StaticLoop, InlinePulseOn(cfg.monitoring, FrameMs(cfg, f), FrameMs(cfg, f), FrameMs(cfg, f)).value, Still)
  {
    var dt := FrameMs(cfg, f);
    ValidNeverFails(cfg.monitoring, dt);
    InlineAgrees(cfg.monitoring, dt);
  }

  /**
   * A drifting frame shows the repeating pulse and the phase step since the
   * previous frame's reading: one frame more of the drifting loop.
   */
  lemma {:induction false} DriftingFrame(cfg: Config, i: nat, ep: Episode, f: nat, prevT: real, step: PhaseMove, shown: seq<Event>)
    requires LoopFor(ep.runType) == DriftingLoop && PulsesUpTo(cfg, ep, f)
    requires PulseOn(cfg.monitoring, FrameMs(cfg, f)).Success?
    requires prevT == PrevReading(cfg, f) && step == Advance(ep.speed, Clock(cfg, f) - prevT)
    ensures PulsesUpTo(cfg, ep, f + 1)
    ensures shown + Frames(cfg, i, ep, f) + [FrameShown(i, DriftingLoop, PulseOn(cfg.monitoring, FrameMs(cfg, f)).value, step)] ==
      shown + Frames(cfg, i, ep, f + 1)
  {
    var e := FrameShown(i, DriftingLoop, PulseOn(cfg.monitoring, FrameMs(cfg, f)).value, step);
    Extended(shown, Frames(cfg, i, ep, f), e, Frames(cfg, i, ep, f + 1));
  }

  /** An image frame, whatever the timing, draws without raising and shows the single pulse. */
  lemma {:induction false} ImageFrame(cfg: Config, i: nat, ep: Episode, f: nat)
    requires LoopFor(ep.runType) == ImageLoop
    ensures FramePulse(cfg, ImageLoop, f) == Success(SinglePulseOn(cfg.monitoring, FrameMs(cfg, f)))
    ensures FrameAt(cfg, i, ep, f) == FrameShown(i, ImageLoop, SinglePulseOn(cfg.monitoring, FrameMs(cfg, f)), Still)
  {
  }

  /** Under a valid timing a frame of an image sequence shows the repeating pulse. */
  lemma {:induction false} SequenceFrame(cfg: Config, i: nat, ep: Episode, f: nat)
    requires cfg.monitoring.Valid() && LoopFor(ep.runType) == SequenceLoop
    ensures PulseOn(cfg.monitoring, FrameMs(cfg, f)).Success?
    ensures FrameAt(cfg, i, ep, f) == FrameShown(i, SequenceLoop, PulseOn(cfg.monitoring, FrameMs(cfg, f)).value, Still)
  {
    ValidNeverFails(cfg.monitoring, FrameMs(cfg, f));
  }

  function Stored(cfg: Config): seq<Event>
  {
    if cfg.storeFrame then [FrameStored] else []
  }

  /** The frames a loop is due to show: those within the duration, or none once stopped. */
  function FramesDue(cfg: Config, ep: Episode, stopped: bool): nat
    requires cfg.Valid()
  {
    if stopped then 0 else FrameCount(ep.duration, cfg.framePeriod)
  }

  /** The episode's loop raises: one of its due frames draws a square that raises. */
  predicate LoopRaises(cfg: Config, ep: Episode, stopped: bool)
    requires cfg.Valid()
  {
    RaisingFrame(cfg, ep, FramesDue(cfg, ep, stopped)) < FramesDue(cfg, ep, stopped)
  }

  /**
   * What the selected loop shows: its frames up to the one that raises,
   * then the error; or all its due frames and, for the drifting loop, the
   * frame it always stores.
   */
  function LoopEvents(cfg: Config, i: nat, ep: Episode, stopped: bool): seq<Event>
    requires cfg.Valid()
  {
    var n := FramesDue(cfg, ep, stopped);
    var k := RaisingFrame(cfg, ep, n);
    Frames(cfg, i, ep, k) +
    if k < n then [Raised(ZeroDivision)]
    else if LoopFor(ep.runType) == DriftingLoop then [FrameStored] else []
  }

  /**
   * single_episode_run (lines 402-415): the events of the selected loop,
   * then, unless it raised, the frame stored when store_frame is set.
   */
  function EpisodeEvents(cfg: Config, i: nat, ep: Episode, stopped: bool): seq<Event>
    requires cfg.Valid()
  {
    LoopEvents(cfg, i, ep, stopped) + (if LoopRaises(cfg, ep, stopped) then [] else Stored(cfg))
  }

  /** start_screen (lines 266-276). */
  function StartEvents(cfg: Config, stopped: bool): seq<Event>
  {
    if stopped then [] else [StartShown(cfg.prestim)] + Stored(cfg)
  }

  /** inter_screen (lines 292-303): only without a stop, with an interstim screen and a positive duration. */
  function InterEvents(cfg: Config, i: nat, ep: Episode, stopped: bool): seq<Event>
  {
    if !stopped && cfg.hasBlankInter && ep.interstim > 0.0 then [InterShown(i, ep.interstimScreen, ep.interstim)] + Stored(cfg)
    else []
  }

  /** end_screen (lines 279-289). */
  function EndEvents(cfg: Config, stopped: bool): seq<Event>
  {
    if stopped then [] else [EndShown(cfg.poststim)] + Stored(cfg)
  }

  function StopMessage(cfg: Config): seq<Event>
  {
    if cfg.hasStatusBar then [StatusMessage("stimulation stopped !")] else []
  }

  /**
   * The log, the final stop flag and the number of key polls of a run or
   * part of one, and whether an exception ended it.
   */
  datatype Outcome = Outcome(events: seq<Event>, stopped: bool, polls: nat, raised: bool)

  /** A block of events that an exception ends. */
  predicate Raises(b: seq<Event>)
  {
    b != [] && b[|b| - 1].Raised?
  }

  /**
   * The episode loop of run (lines 421-427) from episode i on, over the
   * events each episode shows when it is not stopped: a poll that finds a
   * key or the stop flag breaks out, and otherwise the episode is shown; an
   * episode that raises ends the loop.
   */
  function EpisodesFrom(cfg: Config, blocks: seq<seq<Event>>, i: nat, stopped: bool, polls: nat): Outcome
    decreases |blocks| - i
  {
    if i >= |blocks| then Outcome([], stopped, polls, false)
    else if cfg.KeyAt(polls) || stopped then Outcome(StopMessage(cfg), true, polls + 1, false)
    else if Raises(blocks[i]) then Outcome(blocks[i], false, polls + 1, true)
    else Prefixed(blocks[i], EpisodesFrom(cfg, blocks, i + 1, false, polls + 1))
  }

  /**
   * One episode that was not stopped: its start line, its events and,
   * unless it raised, the inter screen before the next one.
   */
  function Shown(cfg: Config, eps: seq<Episode>, i: nat): seq<Event>
    requires cfg.Valid() && i < |eps|
  {
    [EpisodeStarted(i)] + EpisodeEvents(cfg, i, eps[i], false) +
    (if i < |eps| - 1 && !LoopRaises(cfg, eps[i], false) then InterEvents(cfg, i, eps[i], false) else [])
  }

  /** What each episode of a schedule shows when it runs. */
  function Blocks(cfg: Config, eps: seq<Episode>): (b: seq<seq<Event>>)
    requires cfg.Valid()
    ensures |b| == |eps|
  {
    BlocksUpTo(cfg, eps, |eps|)
  }

  /** What the first n episodes of a schedule show when they run. */
  function BlocksUpTo(cfg: Config, eps: seq<Episode>, n: nat): (b: seq<seq<Event>>)
    requires cfg.Valid() && n <= |eps|
    ensures |b| == n
  {
    if n == 0 then [] else BlocksUpTo(cfg, eps, n - 1) + [Shown(cfg, eps, n - 1)]
  }

  function Prefixed(pre: seq<Event>, o: Outcome): Outcome
  {
    Outcome(pre + o.events, o.stopped, o.polls, o.raised)
  }

  /** The groupings of four joined logs that the run lemmas need. */
  lemma {:induction false} Regroup(a: seq<Event>, b: seq<Event>, c: seq<Event>, d: seq<Event>)
    ensures a + b + c + d == a + (b + c + d)
    ensures a + (b + c) + d == a + b + c + d
  {
  }

  lemma {:induction false} PrefixedTwice(a: seq<Event>, b: seq<Event>, o: Outcome)
    ensures Prefixed(a, Prefixed(b, o)) == Prefixed(a + b, o)
  {
    assert a + (b + o.events) == (a + b) + o.events;
  }

  function Closing(cfg: Config, stopped: bool): seq<Event>
  {
    EndEvents(cfg, stopped) +
    (if !stopped && cfg.hasStatusBar then [StatusMessage("stimulation over !")] else []) +
    (if cfg.storeFrame then [FramesSaved] else [])
  }

  /** run (lines 419-434) from a given stop flag and key-poll count. */
  function RunTrace(cfg: Config, eps: seq<Episode>, stopped: bool, polls: nat): Outcome
    requires cfg.Valid()
  {
    RunOver(cfg, Blocks(cfg, eps), stopped, polls)
  }

  /** run over the events each episode shows when it is not stopped; an exception skips the closing. */
  function RunOver(cfg: Config, blocks: seq<seq<Event>>, stopped: bool, polls: nat): Outcome
  {
    var body := EpisodesFrom(cfg, blocks, 0, stopped, polls);
    Outcome(StartEvents(cfg, stopped) + body.events + (if body.raised then [] else Closing(cfg, body.stopped)),
      body.stopped, body.polls, body.raised)
  }

  // ---------------------------------------------------------------------
  // What a run shows
  // ---------------------------------------------------------------------

  function Concat(bs: seq<seq<Event>>): seq<Event>
  {
    if bs == [] then [] else bs[0] + Concat(bs[1..])
  }

  /**
   * The episode at which the loop of run breaks, counting from episode i
   * with the given stop flag and poll count: the first whose poll finds a
   * key (the flag stops the first poll), or the number of episodes.
   */
  function FirstStop(cfg: Config, n: nat, i: nat, stopped: bool, polls: nat): (m: nat)
    requires i <= n
    ensures i <= m <= n
    ensures forall p :: polls <= p < polls + (m - i) ==> !cfg.KeyAt(p)
    ensures m > i ==> !stopped
    ensures m < n ==> cfg.KeyAt(polls + (m - i)) || stopped
    decreases n - i
  {
    if i == n then n
    else if cfg.KeyAt(polls) || stopped then i
    else FirstStop(cfg, n, i + 1, false, polls + 1)
  }

  /** The first of blocks i..m-1 that an exception ends, or m when none is. */
  function FirstRaise(blocks: seq<seq<Event>>, i: nat, m: nat): (r: nat)
    requires i <= m <= |blocks|
    ensures i <= r <= m
    ensures forall j :: i <= j < r ==> !Raises(blocks[j])
    ensures r < m ==> Raises(blocks[r])
    decreases m - i
  {
    if i == m then m else if Raises(blocks[i]) then i else FirstRaise(blocks, i + 1, m)
  }

  /**
   * The loop from episode i shows every episode up to the first stopping
   * poll m, then the stop message; it polls once per episode shown and once
   * more when it stops, and the flag ends up set exactly when it stopped.
   * An episode r before m that raises ends it instead, after its own block.
   */
  lemma {:induction false} EpisodesShape(cfg: Config, blocks: seq<seq<Event>>, i: nat, stopped: bool, polls: nat, m: nat, r: nat)
    requires i <= m <= |blocks|
    requires forall p :: polls <= p < polls + (m - i) ==> !cfg.KeyAt(p)
    requires m > i ==> !stopped
    requires m < |blocks| ==> cfg.KeyAt(polls + (m - i)) || stopped
    requires i <= r <= m && (forall j :: i <= j < r ==> !Raises(blocks[j])) && (r < m ==> Raises(blocks[r]))
    ensures
      var o := EpisodesFrom(cfg, blocks, i, stopped, polls);
      o.raised == (r < m) &&
      (r < m ==> o.events == Concat(blocks[i..r + 1]) && !o.stopped && o.polls == polls + (r - i) + 1) &&
      (r == m ==>
        o.events == Concat(blocks[i..m]) + (if m < |blocks| then StopMessage(cfg) else []) &&
        o.stopped == (m < |blocks| || stopped) &&
        o.polls == polls + (m - i) + (if m < |blocks| then 1 else 0))
    decreases |blocks| - i
  {
    if i == |blocks| {
    } else if cfg.KeyAt(polls) || stopped {
      assert m == i;
    } else if Raises(blocks[i]) {
      assert m > i && r == i;
      assert blocks[i..i + 1] == [blocks[i]];
      assert Concat([blocks[i]]) == blocks[i] + Concat([]);
    } else {
      assert m > i && r > i;
      EpisodesShape(cfg, blocks, i + 1, false, polls + 1, m, r);
      var e := if r < m then r + 1 else m;
      assert blocks[i..e][1..] == blocks[i + 1..e];
      assert Concat(blocks[i..e]) == blocks[i] + Concat(blocks[i + 1..e]);
    }
  }

  /**
   * run, start to end: the start screen unless already stopped, the episodes
   * before the first stopping poll, the stop message if a poll stopped, and
   * the closing screens, which an already-stopped run leaves out.  An
   * episode before the stop that raises ends the run after its block, with
   * no closing.
   */
  lemma {:induction false} RunShape(cfg: Config, blocks: seq<seq<Event>>, stopped: bool, polls: nat)
    ensures
      var m := FirstStop(cfg, |blocks|, 0, stopped, polls);
      var r := FirstRaise(blocks, 0, m);
      var o := RunOver(cfg, blocks, stopped, polls);
      o.raised == (r < m) &&
      (r < m ==> o.events == StartEvents(cfg, stopped) + Concat(blocks[..r + 1]) && !o.stopped && o.polls == polls + r + 1) &&
      (r == m ==>
        o.events == StartEvents(cfg, stopped) + Concat(blocks[..m]) +
          (if m < |blocks| then StopMessage(cfg) else []) + Closing(cfg, o.stopped) &&
        o.stopped == (m < |blocks| || stopped) &&
        o.polls == polls + m + (if m < |blocks| then 1 else 0))
  {
    var m := FirstStop(cfg, |blocks|, 0, stopped, polls);
    var r := FirstRaise(blocks, 0, m);
    EpisodesShape(cfg, blocks, 0, stopped, polls, m, r);
    var body := EpisodesFrom(cfg, blocks, 0, stopped, polls);
    var start := StartEvents(cfg, stopped);
    if r < m {
      assert blocks[0..r + 1] == blocks[..r + 1];
      assert start + body.events + [] == start + body.events;
    } else {
      assert blocks[0..m] == blocks[..m];
      var tail := if m < |blocks| then StopMessage(cfg) else [];
      var closing := Closing(cfg, body.stopped);
      assert body.events == Concat(blocks[..m]) + tail;
      Regroup(start, Concat(blocks[..m]), tail, closing);
    }
  }

  /**
   * A run whose polls find no key and whose flag is clear shows every
   * episode up to the first one that raises; when none raises it shows
   * them all and both closing lines.
   */
  lemma {:induction false} UninterruptedRun(cfg: Config, blocks: seq<seq<Event>>, polls: nat)
    requires forall k :: polls <= k < polls + |blocks| ==> !cfg.KeyAt(k)
    ensures
      var r := FirstRaise(blocks, 0, |blocks|);
      var o := RunOver(cfg, blocks, false, polls);
      !o.stopped && o.raised == (r < |blocks|) &&
      (r < |blocks| ==> o.polls == polls + r + 1 && o.events == StartEvents(cfg, false) + Concat(blocks[..r + 1])) &&
      (r == |blocks| ==>
        o.polls == polls + |blocks| && o.events == StartEvents(cfg, false) + Concat(blocks) + Closing(cfg, false))
  {
    NoKeyNoStop(cfg, |blocks|, 0, polls);
    RunShape(cfg, blocks, false, polls);
    var o := RunOver(cfg, blocks, false, polls);
    if FirstRaise(blocks, 0, |blocks|) == |blocks| {
      var a := StartEvents(cfg, false) + Concat(blocks[..|blocks|]);
      assert blocks[..|blocks|] == blocks;
      assert o.events == a + [] + Closing(cfg, false);
      assert a + [] == a;
    }
  }

  /** Polls that find no key, with the flag clear, let every episode run. */
  lemma {:induction false} NoKeyNoStop(cfg: Config, n: nat, i: nat, polls: nat)
    requires i <= n
    requires forall k :: polls <= k < polls + (n - i) ==> !cfg.KeyAt(k)
    ensures FirstStop(cfg, n, i, false, polls) == n
    decreases n - i
  {
    if i < n {
      assert !cfg.KeyAt(polls);
      NoKeyNoStop(cfg, n, i + 1, polls + 1);
    }
  }

  /** Once stopped, the closing shows neither the end screen nor "stimulation over !". */
  lemma {:induction false} StoppedClosing(cfg: Config)
    ensures Closing(cfg, true) == (if cfg.storeFrame then [FramesSaved] else [])
    ensures EndShown(cfg.poststim) !in Closing(cfg, true)
    ensures StatusMessage("stimulation over !") !in Closing(cfg, true)
  {
  }

  /** Without a stop, the end screen and (with a status bar) "stimulation over !" close the run. */
  lemma {:induction false} UnstoppedClosing(cfg: Config)
    ensures Closing(cfg, false)[0] == EndShown(cfg.poststim)
    ensures StatusMessage("stimulation over !") in Closing(cfg, false) <==> cfg.hasStatusBar
  {
  }

  /**
   * Episode i's block opens with its start line, holds frames of episode i
   * only, and holds the error only when its loop raised.
   */
  lemma {:induction false} ShownFrames(cfg: Config, eps: seq<Episode>, i: nat, e: Event)
    requires cfg.Valid() && i < |eps|
    requires e in Shown(cfg, eps, i)
    ensures Shown(cfg, eps, i)[0] == EpisodeStarted(i)
    ensures e.FrameShown? ==> e.episode == i && e.loop == LoopFor(eps[i].runType)
    ensures e.EpisodeStarted? ==> e.index == i
    ensures e.InterShown? ==> e == InterShown(i, eps[i].interstimScreen, eps[i].interstim)
    ensures e.Raised? ==> e == Raised(ZeroDivision) && LoopRaises(cfg, eps[i], false)
  {
    var k := RaisingFrame(cfg, eps[i], FramesDue(cfg, eps[i], false));
    var fs := Frames(cfg, i, eps[i], k);
    if e in fs {
      var f :| 0 <= f < |fs| && fs[f] == e;
      FrameIndex(cfg, i, eps[i], |fs|, f);
    }
  }

  /** A block ends with the error exactly when its episode's loop raised. */
  lemma {:induction false} ShownRaises(cfg: Config, eps: seq<Episode>, i: nat)
    requires cfg.Valid() && i < |eps|
    ensures Raises(Shown(cfg, eps, i)) <==> LoopRaises(cfg, eps[i], false)
  {
    var ep := eps[i];
    var n := FramesDue(cfg, ep, false);
    var k := RaisingFrame(cfg, ep, n);
    var fs := Frames(cfg, i, ep, k);
    if k > 0 {
      FrameIndex(cfg, i, ep, k, k - 1);
      assert fs[|fs| - 1] == FrameAt(cfg, i, ep, k - 1);
    }
    var events := EpisodeEvents(cfg, i, ep, false);
    var loop := LoopEvents(cfg, i, ep, false);
    var stored := if LoopRaises(cfg, ep, false) then [] else Stored(cfg);
    var end := if k < n then [Raised(ZeroDivision)] else if LoopFor(ep.runType) == DriftingLoop then [FrameStored] else [];
    var inter := if i < |eps| - 1 && !LoopRaises(cfg, ep, false) then InterEvents(cfg, i, ep, false) else [];
    LastOf([EpisodeStarted(i)] + events, inter);
    LastOf([EpisodeStarted(i)], events);
    LastOf(loop, stored);
    LastOf(fs, end);
  }

  /** Two joined logs end with the error as the second does, or as the first when the second is empty. */
  lemma {:induction false} LastOf(a: seq<Event>, b: seq<Event>)
    ensures Raises(a + b) <==> if b == [] then Raises(a) else Raises(b)
  {
    if b != [] {
      assert (a + b)[|a + b| - 1] == b[|b| - 1];
    } else {
      assert a + b == a;
    }
  }

  /**
   * The inter-stimulus screen follows episode i exactly when the episode is
   * not the last, did not raise, the protocol has an interstim screen and
   * its interstim period is positive; it waits that period and shows that
   * episode's colour.
   */
  lemma {:induction false} InterPlacement(cfg: Config, eps: seq<Episode>, i: nat)
    requires cfg.Valid() && i < |eps|
    ensures (exists e :: e in Shown(cfg, eps, i) && e.InterShown?) <==>
      (i < |eps| - 1 && !LoopRaises(cfg, eps[i], false) && cfg.hasBlankInter && eps[i].interstim > 0.0)
  {
    if i < |eps| - 1 && !LoopRaises(cfg, eps[i], false) && cfg.hasBlankInter && eps[i].interstim > 0.0 {
      var e := InterShown(i, eps[i].interstimScreen, eps[i].interstim);
      assert e in InterEvents(cfg, i, eps[i], false);
      assert e in Shown(cfg, eps, i);
    } else {
      var k := RaisingFrame(cfg, eps[i], FramesDue(cfg, eps[i], false));
      var fs := Frames(cfg, i, eps[i], k);
      forall e | e in Shown(cfg, eps, i) ensures !e.InterShown? {
        if e in fs {
          var f :| 0 <= f < |fs| && fs[f] == e;
          FrameIndex(cfg, i, eps[i], |fs|, f);
        }
      }
    }
  }

  /**
   * One turn of the episode loop: a poll that finds a key or the flag ends
   * the loop with the stop message; otherwise block i is shown, and the
   * loop either ends there, when the episode raised, or goes on from the
   * next episode with a clear flag.
   */
  lemma {:induction false} Turn(cfg: Config, blocks: seq<seq<Event>>, i: nat, stopped: bool, polls: nat, base: seq<Event>,
             sofar: seq<Event>, whole: Outcome, before: seq<Event>, stop: bool, raised: bool) returns (next: seq<Event>)
    requires i < |blocks| && whole == Prefixed(sofar, EpisodesFrom(cfg, blocks, i, stopped, polls))
    requires before == base + sofar && stop == (cfg.KeyAt(polls) || stopped)
    requires raised == (!stop && Raises(blocks[i]))
    ensures before + (if stop then StopMessage(cfg) else blocks[i]) == base + next
    ensures whole == if stop then Outcome(next, true, polls + 1, false)
      else if raised then Outcome(next, false, polls + 1, true)
      else Prefixed(next, EpisodesFrom(cfg, blocks, i + 1, false, polls + 1))
  {
    next := sofar + if stop then StopMessage(cfg) else blocks[i];
    if !stop && !raised {
      PrefixedTwice(sofar, blocks[i], EpisodesFrom(cfg, blocks, i + 1, false, polls + 1));
    }
  }

  /** Past the last episode the loop adds nothing. */
  lemma {:induction false} LoopEnds(cfg: Config, blocks: seq<seq<Event>>, i: nat, stopped: bool, polls: nat, sofar: seq<Event>, whole: Outcome)
    requires i == |blocks| && whole == Prefixed(sofar, EpisodesFrom(cfg, blocks, i, stopped, polls))
    ensures whole == Outcome(sofar, stopped, polls, false)
  {
    assert sofar + [] == sofar;
  }

  /** Block i is what episode i shows. */
  lemma {:induction false} BlockAt(cfg: Config, eps: seq<Episode>, blocks: seq<seq<Event>>, i: nat)
    requires cfg.Valid() && blocks == Blocks(cfg, eps) && i < |eps|
    ensures i < |blocks| && blocks[i] == Shown(cfg, eps, i)
  {
    BlockUpTo(cfg, eps, |eps|, i);
  }

  lemma {:induction false} BlockUpTo(cfg: Config, eps: seq<Episode>, n: nat, i: nat)
    requires cfg.Valid() && i < n <= |eps|
    ensures BlocksUpTo(cfg, eps, n)[i] == Shown(cfg, eps, i)
  {
    if i < n - 1 {
      BlockUpTo(cfg, eps, n - 1, i);
    }
  }

  /**
   * No block of a schedule raises when every episode is an array episode or
   * the timing is valid, so run goes through to its closing.
   */
  lemma {:induction false} QuietSchedule(cfg: Config, eps: seq<Episode>)
    requires cfg.Valid()
    requires forall j :: 0 <= j < |eps| ==> cfg.monitoring.Valid() || LoopFor(eps[j].runType) == ImageLoop
    ensures forall j :: 0 <= j < |eps| ==> !Raises(Blocks(cfg, eps)[j])
    ensures FirstRaise(Blocks(cfg, eps), 0, |eps|) == |eps|
  {
    var blocks := Blocks(cfg, eps);
    forall j | 0 <= j < |eps|
      ensures !Raises(blocks[j])
    {
      BlockAt(cfg, eps, blocks, j);
      var n := FramesDue(cfg, eps[j], false);
      if cfg.monitoring.Valid() {
        ValidNeverRaises(cfg, eps[j], n);
      } else {
        ImageNeverRaises(cfg, eps[j], n);
      }
      ShownRaises(cfg, eps, j);
    }
  }

  /**
   * An episode of the static, drifting or sequence loop with a frame to
   * show, under a timing with int((Ton+Toff)/2) == 0, shows its start line
   * and then raises, before any frame.
   */
  lemma {:induction false} InvalidTimingRaises(cfg: Config, eps: seq<Episode>, i: nat)
    requires cfg.Valid() && i < |eps|
    requires cfg.monitoring.TfullFirst() == 0 && cfg.monitoring.Tfull() >= 0
    requires LoopFor(eps[i].runType) != ImageLoop && FramesDue(cfg, eps[i], false) > 0
    ensures Raises(Blocks(cfg, eps)[i])
    ensures Blocks(cfg, eps)[i] == [EpisodeStarted(i), Raised(ZeroDivision)]
  {
    FirstFrameRaises(cfg, eps[i], FramesDue(cfg, eps[i], false));
    BlockAt(cfg, eps, Blocks(cfg, eps), i);
    assert Shown(cfg, eps, i) == [EpisodeStarted(i)] + ([] + [Raised(ZeroDivision)] + []) + [];
  }

  /** The phase advances of the first n frames, as FrameAt records them. */
  function PhaseTotal(cfg: Config, i: nat, ep: Episode, n: nat): real
  {
    if n == 0 then 0.0 else PhaseTotal(cfg, i, ep, n - 1) + Amount(PhaseStep(cfg, LoopFor(ep.runType), ep.speed, n - 1))
  }

  /**
   * The drifting loop's phase advances telescope: over n frames the grating
   * has moved by speed times the clock time from the first frame to the last.
   */
  lemma {:induction false} DriftingPhase(cfg: Config, i: nat, ep: Episode, n: nat)
    requires LoopFor(ep.runType) == DriftingLoop
    ensures PhaseTotal(cfg, i, ep, n) == if n == 0 then 0.0 else ep.speed * Clock(cfg, n - 1)
  {
    if n > 1 {
      DriftingPhase(cfg, i, ep, n - 1);
      var a := Clock(cfg, n - 1);
      var b := Clock(cfg, n - 2);
      assert Amount(PhaseStep(cfg, DriftingLoop, ep.speed, n - 1)) == ep.speed * (a - b);
      assert ep.speed * b + ep.speed * (a - b) == ep.speed * a;
    }
  }

  // ---------------------------------------------------------------------
  // The driver
  // ---------------------------------------------------------------------

  class Driver {
    const cfg: Config
    /** parent.stop_flag */
    var stopFlag: bool
    /** What has been shown so far. */
    var log: seq<Event>
    /** How many times the key queue has been polled. */
    var polls: nat

    constructor (cfg: Config, stopFlag: bool)
      requires cfg.Valid()
      ensures this.cfg == cfg && this.stopFlag == stopFlag && log == [] && polls == 0
    {
      this.cfg := cfg;
      this.stopFlag := stopFlag;
      log := [];
      polls := 0;
    }

    /** stop_signal (lines 65-72): a pending key or the flag stops, and the flag stays set. */
    method StopSignal() returns (stop: bool)
      modifies this
      ensures stop == (cfg.KeyAt(old(polls)) || old(stopFlag))
      ensures stopFlag == stop
      ensures polls == old(polls) + 1
      ensures log == old(log) + (if stop then StopMessage(cfg) else [])
    {
      var pending := cfg.KeyAt(polls);
      polls := polls + 1;
      if pending || stopFlag {
        stopFlag := true;
        if cfg.hasStatusBar {
          log := log + [StatusMessage("stimulation stopped !")];
        }
        return true;
      }
      return false;
    }

    method StoreIfAsked()
      modifies this
      ensures log == old(log) + Stored(cfg)
      ensures stopFlag == old(stopFlag) && polls == old(polls)
    {
      if cfg.storeFrame {
        log := log + [FrameStored];
      }
    }

    method StartScreen()
      modifies this
      ensures log == old(log) + StartEvents(cfg, stopFlag)
      ensures stopFlag == old(stopFlag) && polls == old(polls)
    {
      if !stopFlag {
        log := log + [StartShown(cfg.prestim)];
        StoreIfAsked();
      }
    }

    method EndScreen()
      modifies this
      ensures log == old(log) + EndEvents(cfg, stopFlag)
      ensures stopFlag == old(stopFlag) && polls == old(polls)
    {
      if !stopFlag {
        log := log + [EndShown(cfg.poststim)];
        StoreIfAsked();
      }
    }

    method InterScreen(i: nat, ep: Episode)
      modifies this
      ensures log == old(log) + InterEvents(cfg, i, ep, stopFlag)
      ensures stopFlag == old(stopFlag) && polls == old(polls)
    {
      if !stopFlag && cfg.hasBlankInter && ep.interstim > 0.0 {
        log := log + [InterShown(i, ep.interstimScreen, ep.interstim)];
        StoreIfAsked();
      }
    }

    /**
     * single_static_pattern_presentation (lines 328-344): the inline pulse
     * on three equal readings, until a modulo by zero raises before a flip.
     */
    method StaticPresentation(i: nat, ep: Episode) returns (raised: bool)
      requires cfg.Valid() && LoopFor(ep.runType) == StaticLoop
      modifies this
      ensures raised == LoopRaises(cfg, ep, old(stopFlag))
      ensures log == old(log) + LoopEvents(cfg, i, ep, old(stopFlag))
      ensures stopFlag == old(stopFlag) && polls == old(polls)
    {
      var n := FrameCount(ep.duration, cfg.framePeriod);
      var f := 0;
      // f < n is the test (clock - start) < duration at frame f (LoopTest)
      while f < n && !stopFlag
        invariant f <= n && (stopFlag ==> f == 0)
        invariant PulsesUpTo(cfg, ep, f)
        invariant log == old(log) + Frames(cfg, i, ep, f)
        invariant stopFlag == old(stopFlag) && polls == old(polls)
        decreases n - f
      {
        var dt := FrameMs(cfg, f);
        var on := InlinePulseOn(cfg.monitoring, dt, dt, dt);
        assert FramePulse(cfg, StaticLoop, f) == on;
        if on.Failure? {
          RaisingFrameExact(cfg, ep, n, f);
          assert LoopEvents(cfg, i, ep, old(stopFlag)) == Frames(cfg, i, ep, f) + [Raised(ZeroDivision)];
          log := log + [Raised(on.error)];
          return true;
        }
        assert PulsesUpTo(cfg, ep, f + 1);
        Extended(old(log), Frames(cfg, i, ep, f), FrameShown(i, StaticLoop, on.value, Still), Frames(cfg, i, ep, f + 1));
        log := log + [FrameShown(i, StaticLoop, on.value, Still)];
        f := f + 1;
      }
      RaisingFrameExact(cfg, ep, FramesDue(cfg, ep, stopFlag), f);
      assert log == log + [];
      raised := false;
    }

    /**
     * single_dynamic_grating_presentation (lines 348-363): the phase advances
     * by speed * (new_t - prev_t); a modulo by zero raises before a flip, and
     * only a loop that ends normally stores its last frame.
     */
    method DriftingPresentation(i: nat, ep: Episode) returns (raised: bool)
      requires cfg.Valid() && LoopFor(ep.runType) == DriftingLoop
      modifies this
      ensures raised == LoopRaises(cfg, ep, old(stopFlag))
      ensures log == old(log) + LoopEvents(cfg, i, ep, old(stopFlag))
      ensures stopFlag == old(stopFlag) && polls == old(polls)
    {
      var n := FrameCount(ep.duration, cfg.framePeriod);
      var f := 0;
      var prevT := 0.0;
      // f < n is the test (clock - start) < duration at frame f (LoopTest)
      while f < n && !stopFlag
        invariant f <= n && (stopFlag ==> f == 0)
        invariant PulsesUpTo(cfg, ep, f)
        invariant log == old(log) + Frames(cfg, i, ep, f)
        invariant prevT == PrevReading(cfg, f)
        invariant stopFlag == old(stopFlag) && polls == old(polls)
        decreases n - f
      {
        var newT := Clock(cfg, f);
        var step := Advance(ep.speed, newT - prevT);
        var on := PulseOn(cfg.monitoring, FrameMs(cfg, f));
        assert FramePulse(cfg, DriftingLoop, f) == on;
        if on.Failure? {
          RaisingFrameExact(cfg, ep, n, f);
          assert LoopEvents(cfg, i, ep, old(stopFlag)) == Frames(cfg, i, ep, f) + [Raised(ZeroDivision)];
          log := log + [Raised(on.error)];
          return true;
        }
        DriftingFrame(cfg, i, ep, f, prevT, step, old(log));
        log := log + [FrameShown(i, DriftingLoop, on.value, step)];
        prevT := newT;
        f := f + 1;
      }
      RaisingFrameExact(cfg, ep, FramesDue(cfg, ep, stopFlag), f);
      assert LoopEvents(cfg, i, ep, old(stopFlag)) == Frames(cfg, i, ep, f) + [FrameStored];
      log := log + [FrameStored];
      raised := false;
    }

    /**
     * single_array_presentation (lines 368-379): the single-pulse square,
     * which takes no modulo, so this loop never raises.
     */
    method ImagePresentation(i: nat, ep: Episode)
      requires cfg.Valid() && LoopFor(ep.runType) == ImageLoop
      modifies this
      ensures !LoopRaises(cfg, ep, old(stopFlag))
      ensures log == old(log) + LoopEvents(cfg, i, ep, old(stopFlag))
      ensures stopFlag == old(stopFlag) && polls == old(polls)
    {
      var n := FrameCount(ep.duration, cfg.framePeriod);
      var f := 0;
      // f < n is the test (clock - start) < duration at frame f (LoopTest)
      while f < n && !stopFlag
        invariant f <= n && (stopFlag ==> f == 0)
        invariant PulsesUpTo(cfg, ep, f)
        invariant log == old(log) + Frames(cfg, i, ep, f)
        invariant stopFlag == old(stopFlag) && polls == old(polls)
        decreases n - f
      {
        ImageFrame(cfg, i, ep, f);
        var on := SinglePulseOn(cfg.monitoring, FrameMs(cfg, f));
        assert PulsesUpTo(cfg, ep, f + 1);
        Extended(old(log), Frames(cfg, i, ep, f), FrameShown(i, ImageLoop, on, Still), Frames(cfg, i, ep, f + 1));
        log := log + [FrameShown(i, ImageLoop, on, Still)];
        f := f + 1;
      }
      ImageNeverRaises(cfg, ep, FramesDue(cfg, ep, stopFlag));
      RaisingFrameExact(cfg, ep, FramesDue(cfg, ep, stopFlag), f);
      assert log == log + [];
    }

    /**
     * single_array_sequence_presentation (lines 384-399): the repeating
     * pulse, until a modulo by zero raises before a flip.
     */
    method SequencePresentation(i: nat, ep: Episode) returns (raised: bool)
      requires cfg.Valid() && LoopFor(ep.runType) == SequenceLoop
      modifies this
      ensures raised == LoopRaises(cfg, ep, old(stopFlag))
      ensures log == old(log) + LoopEvents(cfg, i, ep, old(stopFlag))
      ensures stopFlag == old(stopFlag) && polls == old(polls)
    {
      var n := FrameCount(ep.duration, cfg.framePeriod);
      var f := 0;
      // f < n is the test (clock - start) < duration at frame f (LoopTest)
      while f < n && !stopFlag
        invariant f <= n && (stopFlag ==> f == 0)
        invariant PulsesUpTo(cfg, ep, f)
        invariant log == old(log) + Frames(cfg, i, ep, f)
        invariant stopFlag == old(stopFlag) && polls == old(polls)
        decreases n - f
      {
        var on := PulseOn(cfg.monitoring, FrameMs(cfg, f));
        assert FramePulse(cfg, SequenceLoop, f) == on;
        if on.Failure? {
          RaisingFrameExact(cfg, ep, n, f);
          assert LoopEvents(cfg, i, ep, old(stopFlag)) == Frames(cfg, i, ep, f) + [Raised(ZeroDivision)];
          log := log + [Raised(on.error)];
          return true;
        }
        assert PulsesUpTo(cfg, ep, f + 1);
        Extended(old(log), Frames(cfg, i, ep, f), FrameShown(i, SequenceLoop, on.value, Still), Frames(cfg, i, ep, f + 1));
        log := log + [FrameShown(i, SequenceLoop, on.value, Still)];
        f := f + 1;
      }
      RaisingFrameExact(cfg, ep, FramesDue(cfg, ep, stopFlag), f);
      assert log == log + [];
      raised := false;
    }

    /**
     * single_episode_run (lines 402-415): the loop the run type selects,
     * then the stored frame; an exception from the loop skips the store.
     */
    method SingleEpisodeRun(i: nat, ep: Episode) returns (raised: bool)
      requires cfg.Valid()
      modifies this
      ensures raised == LoopRaises(cfg, ep, old(stopFlag))
      ensures log == old(log) + EpisodeEvents(cfg, i, ep, old(stopFlag))
      ensures stopFlag == old(stopFlag) && polls == old(polls)
    {
      if ep.runType == "drifting" {
        raised := DriftingPresentation(i, ep);
      } else if ep.runType == "image" {
        ImagePresentation(i, ep);
        raised := false;
      } else if ep.runType == "images_sequence" {
        raised := SequencePresentation(i, ep);
      } else {
        raised := StaticPresentation(i, ep);
      }
      if !raised {
        StoreIfAsked();
      } else {
        assert log == log + [];
      }
    }

    /**
     * One turn of the episode loop of run (lines 421-427): poll, then either
     * stop or show episode i, which may raise.
     */
    method NextEpisode(eps: seq<Episode>, i: nat, ghost blocks: seq<seq<Event>>) returns (stop: bool, raised: bool)
      requires cfg.Valid() && i < |eps| && blocks == Blocks(cfg, eps)
      modifies this
      ensures stop == (cfg.KeyAt(old(polls)) || old(stopFlag))
      ensures raised == (!stop && Raises(blocks[i]))
      ensures stopFlag == stop && polls == old(polls) + 1
      ensures log == old(log) + if stop then StopMessage(cfg) else blocks[i]
    {
      BlockAt(cfg, eps, blocks, i);
      stop := StopSignal();
      raised := false;
      if !stop {
        ShownRaises(cfg, eps, i);
        ghost var before := log;
        assert before == old(log) + [] == old(log);
        log := log + [EpisodeStarted(i)];
        raised := SingleEpisodeRun(i, eps[i]);
        ghost var events := EpisodeEvents(cfg, i, eps[i], false);
        ghost var inter := if i < |eps| - 1 && !raised then InterEvents(cfg, i, eps[i], false) else [];
        if i < |eps| - 1 && !raised {
          InterScreen(i, eps[i]);
        } else {
          assert log == log + [];
        }
        assert log == before + [EpisodeStarted(i)] + events + inter;
        assert blocks[i] == [EpisodeStarted(i)] + events + inter;
        Regroup(before, [EpisodeStarted(i)], events, inter);
        assert log == old(log) + blocks[i];
      }
    }

    /** The end of run (lines 428-434): the end screen, the closing message and the saved frames. */
    method Finish()
      modifies this
      ensures log == old(log) + Closing(cfg, stopFlag)
      ensures stopFlag == old(stopFlag) && polls == old(polls)
    {
      EndScreen();
      if !stopFlag && cfg.hasStatusBar {
        log := log + [StatusMessage("stimulation over !")];
      }
      if cfg.storeFrame {
        log := log + [FramesSaved];
      }
    }

    /** The episode loop of run (lines 421-427), which an exception leaves. */
    method Episodes(eps: seq<Episode>) returns (raised: bool)
      requires cfg.Valid()
      modifies this
      ensures
        var o := EpisodesFrom(cfg, Blocks(cfg, eps), 0, old(stopFlag), old(polls));
        log == old(log) + o.events && stopFlag == o.stopped && polls == o.polls && raised == o.raised
    {
      ghost var blocks := Blocks(cfg, eps);
      ghost var whole := EpisodesFrom(cfg, blocks, 0, stopFlag, polls);
      ghost var sofar: seq<Event> := [];
      var i := 0;
      var stop := false;
      raised := false;
      while i < |eps| && !stop && !raised
        invariant i <= |eps| && log == old(log) + sofar
        invariant stop || raised ==> whole == Outcome(sofar, stopFlag, polls, raised)
        invariant !stop && !raised ==> whole == Prefixed(sofar, EpisodesFrom(cfg, blocks, i, stopFlag, polls))
        decreases |eps| - i, !stop && !raised
      {
        ghost var stopped, polled, before := stopFlag, polls, log;
        stop, raised := NextEpisode(eps, i, blocks);
        sofar := Turn(cfg, blocks, i, stopped, polled, old(log), sofar, whole, before, stop, raised);
        if !stop && !raised {
          i := i + 1;
        }
      }
      if !stop && !raised {
        LoopEnds(cfg, blocks, i, stopFlag, polls, sofar, whole);
      }
    }

    /** run (lines 419-434): an exception from an episode leaves it before the closing. */
    method Run(eps: seq<Episode>) returns (raised: bool)
      requires cfg.Valid()
      modifies this
      ensures
        var o := RunTrace(cfg, eps, old(stopFlag), old(polls));
        log == old(log) + o.events && stopFlag == o.stopped && polls == o.polls && raised == o.raised
    {
      ghost var whole := EpisodesFrom(cfg, Blocks(cfg, eps), 0, stopFlag, polls);
      ghost var start := StartEvents(cfg, stopFlag);
      assert RunTrace(cfg, eps, stopFlag, polls) ==
        Outcome(start + whole.events + (if whole.raised then [] else Closing(cfg, whole.stopped)),
          whole.stopped, whole.polls, whole.raised);
      StartScreen();
      raised := Episodes(eps);
      if !raised {
        Finish();
        Regroup(old(log), start, whole.events, Closing(cfg, whole.stopped));
      } else {
        assert old(log) + start + whole.events == old(log) + (start + whole.events + []);
      }
    }
  }
}
