/**
 * visual_stim.init_experiment as a whole: the Single-Stimulus branch, the
 * sequence branch, and the schedule dictionary both fill in.
 */
module Experiments {
  import opened Wrappers
  import opened Values
  import opened Strings
  import opened Factorial

  /** The factor a protocol key stands for: the key up to its first " (" (its units). */
  function FactorName(key: string): string
  {
    BeforeFirst(key, " (")
  }

  /**
   * Single-Stimulus mode: the value of every key naming a factor.  The
   * entries are the items of a dictionary, so the keys are distinct, but two
   * keys with different units can name one factor; the later then wins.
   */
  function MatchedFactors(entries: seq<(string, Value)>, keys: seq<string>): (m: map<string, seq<Value>>)
    ensures forall k :: k in m ==> k in keys && |m[k]| == 1
    ensures m == map[] <==> forall i :: 0 <= i < |entries| ==> FactorName(entries[i].0) !in keys
    decreases |entries|
  {
    if entries == [] then map[]
    else
      var m := MatchedFactors(entries[..|entries| - 1], keys);
      var last := entries[|entries| - 1];
      var name := FactorName(last.0);
      assert forall i :: 0 <= i < |entries| - 1 ==> entries[..|entries| - 1][i] == entries[i];
      if name in keys then m[name := [last.1]] else m
  }

  /** The one-episode columns Single-Stimulus mode writes after every matching key. */
  function SingleColumns(p: Protocol, runType: string): map<string, seq<Value>>
  {
    map["index" := [Int(0)],
        "frame_run_type" := [Text(runType)],
        "time_start" := [Num(p.prestim)],
        "time_stop" := [Num(p.duration + p.prestim)],
        "time_duration" := [Num(p.duration)],
        "interstim" := [Num(p.interstim)],
        "interstim-screen" := [Num(p.interstimScreen)]]
  }

  /** The Single-Stimulus schedule after reading the given protocol entries. */
  function SingleSchedule(entries: seq<(string, Value)>, p: Protocol, keys: seq<string>, runType: string): Experiment
  {
    var m := MatchedFactors(entries, keys);
    if m == map[] then map[] else m + SingleColumns(p, runType)
  }

  /**
   * Single-Stimulus mode yields no schedule at all when no protocol key names a
   * factor; otherwise exactly one episode, with index 0, starting at the
   * prestim period and stopping one duration later, holding each named
   * factor's protocol value.
   */
  lemma {:induction false} SingleStimulusOneEpisode(p: Protocol, keys: seq<string>, runType: string)
    ensures var x := SingleSchedule(p.entries, p, keys, runType);
      ((forall i :: 0 <= i < |p.entries| ==> FactorName(p.entries[i].0) !in keys) ==> x == map[]) &&
      ((exists i :: 0 <= i < |p.entries| && FactorName(p.entries[i].0) in keys) ==>
        (forall k :: k in x ==> |x[k]| == 1) &&
        x["index"] == [Int(0)] && x["time_start"] == [Num(p.prestim)] &&
        x["time_stop"] == [Num(p.prestim + p.duration)] &&
        (forall k :: k in keys && k !in ReservedColumns && k in MatchedFactors(p.entries, keys) ==>
           x[k] == MatchedFactors(p.entries, keys)[k]))
  {
  }

  /**
   * The Single-Stimulus branch of init_experiment: a pass over the protocol
   * keys, each key naming a factor storing its value and rewriting the
   * one-episode columns.
   */
  method SingleStimulusSchedule(p: Protocol, keys: seq<string>, runType: string) returns (x: Experiment)
    ensures x == SingleSchedule(p.entries, p, keys, runType)
  {
    x := map[];
    var i := 0;
    while i < |p.entries|
      invariant 0 <= i <= |p.entries|
      invariant x == SingleSchedule(p.entries[..i], p, keys, runType)
    {
      var (key, value) := p.entries[i];
      var name := FactorName(key);
      SingleScheduleStep(p, keys, runType, i, x);
      if name in keys {
        x := x[name := [value]] + SingleColumns(p, runType);
      }
      i := i + 1;
    }
    assert p.entries[..i] == p.entries;
  }

  /** One pass of the key loop: a key naming a factor stores its value and rewrites the one-episode columns. */
  lemma {:induction false} SingleScheduleStep(p: Protocol, keys: seq<string>, runType: string, i: nat, x: Experiment)
    requires i < |p.entries| && x == SingleSchedule(p.entries[..i], p, keys, runType)
    ensures SingleSchedule(p.entries[..i + 1], p, keys, runType) ==
      if FactorName(p.entries[i].0) in keys then x[FactorName(p.entries[i].0) := [p.entries[i].1]] + SingleColumns(p, runType)
      else x
  {
    var name, value := FactorName(p.entries[i].0), p.entries[i].1;
    var c := SingleColumns(p, runType);
    assert p.entries[..i + 1][..i] == p.entries[..i];
    var m := MatchedFactors(p.entries[..i], keys);
    if name in keys && m != map[] {
      assert (m + c)[name := [value]] + c == m[name := [value]] + c;
    }
  }

  /** The factor columns of the sequence branch, one per factor key. */
  function FactorSchedule(keys: seq<string>, c: SequenceColumns): (x: Experiment)
    requires |keys| == |c.factors|
    requires forall a, b :: 0 <= a < b < |keys| ==> keys[a] != keys[b]
    ensures forall j :: 0 <= j < |keys| ==> keys[j] in x && x[keys[j]] == Nums(c.factors[j])
    ensures forall k :: k in x ==> k in keys
  {
    map j | 0 <= j < |keys| :: keys[j] := Nums(c.factors[j])
  }

  /** The bookkeeping columns every sequence-mode schedule holds. */
  function ReservedSchedule(c: SequenceColumns): (x: Experiment)
    ensures forall k :: k in x <==> k in ReservedColumns
    ensures x["index"] == Ints(c.index) && x["repeat"] == Ints(c.repeat)
    ensures x["time_start"] == Nums(c.timeStart) && x["time_stop"] == Nums(c.timeStop)
  {
    map["index" := Ints(c.index),
        "repeat" := Ints(c.repeat),
        "time_start" := Nums(c.timeStart),
        "time_stop" := Nums(c.timeStop),
        "interstim" := Nums(c.interstim),
        "time_duration" := Nums(c.timeDuration),
        "interstim-screen" := Nums(c.interstimScreen),
        "frame_run_type" := Texts(c.frameRunType)]
  }

  /** The schedule dictionary of the sequence branch: one column per factor plus the reserved columns. */
  function SequenceSchedule(keys: seq<string>, c: SequenceColumns): (x: Experiment)
    requires |keys| == |c.factors|
    requires forall a, b :: 0 <= a < b < |keys| ==> keys[a] != keys[b]
    requires forall j :: 0 <= j < |keys| ==> keys[j] !in ReservedColumns
    ensures forall j :: 0 <= j < |keys| ==> keys[j] in x && x[keys[j]] == Nums(c.factors[j])
    ensures forall k :: k in x <==> k in keys || k in ReservedColumns
    ensures x["index"] == Ints(c.index) && x["repeat"] == Ints(c.repeat)
    ensures x["time_start"] == Nums(c.timeStart) && x["time_stop"] == Nums(c.timeStop)
  {
    FactorSchedule(keys, c) + ReservedSchedule(c)
  }

  // ---------------------------------------------------------------------
  // The protocol keys init_experiment reads
  // ---------------------------------------------------------------------

  /**
   * protocol[key]: the value stored under key, None where the dictionary
   * lacks it (a KeyError).  The entries are the items of a dictionary, so no
   * key occurs twice and the first match is the only one.
   */
  function Lookup(entries: seq<(string, Value)>, key: string): (r: Option<Value>)
    ensures r.None? <==> forall i :: 0 <= i < |entries| ==> entries[i].0 != key
    ensures r.Some? ==> exists i :: 0 <= i < |entries| && entries[i] == (key, r.value)
    decreases |entries|
  {
    if entries == [] then None
    else if entries[0].0 == key then Some(entries[0].1)
    else
      assert forall i :: 0 <= i < |entries| - 1 ==> entries[1..][i] == entries[i + 1];
      Lookup(entries[1..], key)
  }

  predicate Present(entries: seq<(string, Value)>, key: string)
  {
    Lookup(entries, key).Some?
  }

  /** The number stored under key: a KeyError when it is absent, a type error for text or None. */
  function ReadNumber(entries: seq<(string, Value)>, key: string): (r: Result<real>)
    ensures r == Failure(MissingKey) <==> !Present(entries, key)
    ensures r.Success? ==> Present(entries, key) && AsReal(Lookup(entries, key).value) == Some(r.value)
  {
    match Lookup(entries, key)
    case None => Failure(MissingKey)
    case Some(v) => if AsReal(v).Some? then Success(AsReal(v).value) else Failure(NonNumericValue)
  }

  /** The value 'N-F' holds, as the comparison N-F > 1 sees it. */
  function AboveOne(v: Value): bool
  {
    AsReal(v).Some? && AsReal(v).value > 1.0
  }

  /** One of the keys factor F needs is absent: 'N-F', then 'F-2', and 'F-1' when N-F > 1. */
  predicate RangeKeyMissing(entries: seq<(string, Value)>, key: string)
  {
    !Present(entries, "N-" + key) ||
    (AsReal(Lookup(entries, "N-" + key).value).Some? &&
     (!Present(entries, key + "-2") || (AboveOne(Lookup(entries, "N-" + key).value) && !Present(entries, key + "-1"))))
  }

  /**
   * One factor's keys as the sequence branch reads them: 'N-F' is compared
   * with 1 (text or None cannot be); above 1, 'F-1' and 'F-2' are looked up and
   * np.linspace then needs 'N-F' to be an integer and the bounds to be
   * numbers; otherwise only 'F-2' is read.
   */
  function ReadRange(entries: seq<(string, Value)>, key: string): (r: Result<FactorRange>)
    ensures r == Failure(MissingKey) <==> RangeKeyMissing(entries, key)
    ensures r.Success? ==>
      Present(entries, "N-" + key) && Present(entries, key + "-2") &&
      var n := Lookup(entries, "N-" + key).value;
      var hi := AsReal(Lookup(entries, key + "-2").value);
      hi.Some? &&
      if AboveOne(n) then
        n.Int? && Present(entries, key + "-1") && AsReal(Lookup(entries, key + "-1").value).Some? &&
        FactorValues(r.value) == Linspace(AsReal(Lookup(entries, key + "-1").value).value, hi.value, n.i)
      else FactorValues(r.value) == [hi.value]
  {
    match Lookup(entries, "N-" + key)
    case None => Failure(MissingKey)
    case Some(n) =>
      if AsReal(n).None? then Failure(NonNumericValue)
      else if AboveOne(n) then
        if !Present(entries, key + "-1") || !Present(entries, key + "-2") then Failure(MissingKey)
        else if !n.Int? then Failure(NotAnInteger)
        else
          var lo, hi := AsReal(Lookup(entries, key + "-1").value), AsReal(Lookup(entries, key + "-2").value);
          if lo.None? || hi.None? then Failure(NonNumericValue) else Success(FactorRange(lo.value, hi.value, n.i))
      else
        var hi :- ReadNumber(entries, key + "-2");
        Success(FactorRange(hi, hi, 1))
  }

  /** The factor loop of lines 218-223: every factor's range, or the error of the first factor that fails. */
  function ReadRanges(entries: seq<(string, Value)>, keys: seq<string>): (r: Result<seq<FactorRange>>)
    ensures r.Success? <==> forall j :: 0 <= j < |keys| ==> ReadRange(entries, keys[j]).Success?
    ensures r.Success? ==> (|r.value| == |keys| &&
      forall j :: 0 <= j < |keys| ==> ReadRange(entries, keys[j]) == Success(r.value[j]))
    decreases |keys|
  {
    if keys == [] then Success([])
    else
      var f :- ReadRange(entries, keys[0]);
      var fs :- ReadRanges(entries, keys[1..]);
      assert forall j :: 1 <= j < |keys| ==> keys[1..][j - 1] == keys[j];
      Success([f] + fs)
  }

  /** The factors are read in key order, so the first factor whose keys fail decides the error. */
  lemma {:induction false} FirstRangeFailure(entries: seq<(string, Value)>, keys: seq<string>, j: nat)
    requires j < |keys| && ReadRange(entries, keys[j]).Failure?
    requires forall i :: 0 <= i < j ==> ReadRange(entries, keys[i]).Success?
    ensures ReadRanges(entries, keys) == Failure(ReadRange(entries, keys[j]).error)
    decreases j
  {
    if j > 0 {
      assert forall i :: 0 <= i < j - 1 ==> keys[1..][i] == keys[i + 1];
      FirstRangeFailure(entries, keys[1..], j - 1);
    }
  }

  /** A failing factor loop fails with the error of some factor's own read. */
  lemma {:induction false} RangesFailure(entries: seq<(string, Value)>, keys: seq<string>) returns (j: nat)
    requires ReadRanges(entries, keys).Failure?
    ensures j < |keys| && ReadRange(entries, keys[j]).Failure?
    ensures ReadRanges(entries, keys) == Failure(ReadRange(entries, keys[j]).error)
    decreases |keys|
  {
    if ReadRange(entries, keys[0]).Failure? {
      j := 0;
    } else {
      assert ReadRanges(entries, keys[1..]).Failure?;
      var i := RangesFailure(entries, keys[1..]);
      assert keys[1..][i] == keys[i + 1];
      j := i + 1;
    }
  }

  /** A Python int where a slice bound is needed: an int or a bool; a float or text is refused, None cannot be added to. */
  function AsInt(v: Value): (r: Result<int>)
    ensures v.Int? ==> r == Success(v.i)
    ensures (v.Num? || v.Text?) ==> r == Failure(NotAnInteger)
  {
    match v
    case Int(i) => Success(i)
    case Bool(b) => Success(if b then 1 else 0)
    case Num(_) => Failure(NotAnInteger)
    case Text(_) => Failure(NotAnInteger)
    case Null => Failure(NonNumericValue)
  }

  /**
   * max([1, N-repeat]) as range() then uses it: a float at most 1 loses to the
   * int 1, a larger one reaches range() and is refused, text or None cannot
   * be compared with 1.
   */
  function RepeatCount(v: Value): (r: Result<int>)
    ensures r.Success? ==> AsReal(v).Some? && (r.value > 1 <==> AboveOne(v))
    ensures r.Success? && r.value > 1 ==> v == Int(r.value)
    ensures v.Int? ==> r == Success(v.i)
  {
    match v
    case Int(i) => Success(i)
    case Bool(b) => Success(if b then 1 else 0)
    case Num(x) => if x <= 1.0 then Success(1) else Failure(NotAnInteger)
    case _ => Failure(NonNumericValue)
  }

  /**
   * Where the episode loop resumes for 'starting-index' s over the total
   * tiled entries: index[s:] starts at SliceStart(s, total), and each
   * repeat[n + s] reads that same tiled entry, a negative position counting
   * from the end; below -total the first repeat lookup is out of range.
   */
  function ResumeAt(s: int, total: nat): (r: Result<nat>)
    requires total >= 1
    ensures r.Failure? <==> s + total < 0
    ensures r.Failure? ==> r.error == IndexOutOfRange && PyIndex(s, total).None?
    ensures r.Success? ==> (r.value == SliceStart(s, total) &&
      forall i :: s <= i < s + (total - r.value) ==> PyIndex(i, total) == Some(r.value + (i - s)))
  {
    if s + total < 0 then Failure(IndexOutOfRange) else Success(SliceStart(s, total))
  }

  /** The timing keys, in the order the episode loop reads them. */
  const TimingKeys: seq<string> :=
    ["presentation-prestim-period", "presentation-duration",
     "presentation-interstim-period", "presentation-interstim-screen"]

  /** The four timing values: a KeyError when one is absent, else a type error when one is not a number. */
  function ReadTiming(entries: seq<(string, Value)>): (r: Result<seq<real>>)
    ensures r == Failure(MissingKey) <==> exists j :: 0 <= j < 4 && !Present(entries, TimingKeys[j])
    ensures r.Success? ==> (|r.value| == 4 &&
      forall j :: 0 <= j < 4 ==> ReadNumber(entries, TimingKeys[j]) == Success(r.value[j]))
  {
    if exists j :: 0 <= j < 4 && !Present(entries, TimingKeys[j]) then Failure(MissingKey)
    else if exists j :: 0 <= j < 4 && ReadNumber(entries, TimingKeys[j]).Failure? then Failure(NonNumericValue)
    else Success(seq(4, j requires 0 <= j < 4 => ReadNumber(entries, TimingKeys[j]).value))
  }

  /** The number of tiled entries, Nrepeats * K. */
  function TiledTotal(p: Protocol, ranges: seq<FactorRange>): (t: nat)
    ensures t >= 1 && t == Repeats(p) * NoRepeatCount(ranges)
  {
    var r, k := Repeats(p), NoRepeatCount(ranges);
    assert r * k >= 1 * k by {
      assert (r - 1) * k >= 0;
    }
    r * k
  }

  /** The 'Presentation' text; a value that is not a text equals neither mode. */
  function PresentationOf(v: Value): string
  {
    if v.Text? then v.s else ""
  }

  /** The four timing fields of p are the numbers its timing keys hold. */
  predicate TimingFrom(entries: seq<(string, Value)>, p: Protocol)
  {
    ReadTiming(entries) == Success([p.prestim, p.duration, p.interstim, p.interstimScreen])
  }

  /** p with its four timing fields read from its entries. */
  function WithTiming(p: Protocol, ranges: seq<FactorRange>): (r: Result<(Protocol, seq<FactorRange>)>)
    ensures ReadTiming(p.entries).Failure? ==> r == Failure(ReadTiming(p.entries).error)
    ensures r.Success? ==> (r.value.1 == ranges && TimingFrom(p.entries, r.value.0) &&
      r.value.0.(prestim := p.prestim, duration := p.duration,
                 interstim := p.interstim, interstimScreen := p.interstimScreen) == p)
  {
    var t :- ReadTiming(p.entries);
    assert t == [t[0], t[1], t[2], t[3]];
    Success((p.(prestim := t[0], duration := t[1], interstim := t[2], interstimScreen := t[3]), ranges))
  }

  /**
   * Lines 239-246 and the first turn of the episode loop: 'N-repeat', then
   * 'starting-index', which must leave the first repeat lookup inside the
   * tiled entries, then the timing keys if the loop runs at all.
   */
  function ReadResume(entries: seq<(string, Value)>, p: Protocol, ranges: seq<FactorRange>)
    : (r: Result<(Protocol, seq<FactorRange>)>)
    requires p.entries == entries
    ensures r.Success? ==>
      var q := r.value.0;
      r.value.1 == ranges && q.entries == entries && q.presentation == p.presentation &&
      Present(entries, "N-repeat") && RepeatCount(Lookup(entries, "N-repeat").value) == Success(q.nRepeat) &&
      Present(entries, "starting-index") && AsInt(Lookup(entries, "starting-index").value).Success? &&
      var s := AsInt(Lookup(entries, "starting-index").value).value;
      s + TiledTotal(q, ranges) >= 0 && q.startingIndex == SliceStart(s, TiledTotal(q, ranges)) &&
      (q.startingIndex < TiledTotal(q, ranges) ==> TimingFrom(entries, q))
  {
    if !Present(entries, "N-repeat") then Failure(MissingKey)
    else
      var n :- RepeatCount(Lookup(entries, "N-repeat").value);
      if !Present(entries, "starting-index") then Failure(MissingKey)
      else
        var s :- AsInt(Lookup(entries, "starting-index").value);
        var total := TiledTotal(p.(nRepeat := n), ranges);
        var start :- ResumeAt(s, total);
        var q := p.(nRepeat := n, startingIndex := start);
        assert TiledTotal(q, ranges) == total;
        if start < total then WithTiming(q, ranges) else Success((q, ranges))
  }

  /** The sequence branch's reads: the factor loop, the empty-list error, 'shuffling-seed', then ReadResume. */
  function ReadSequence(entries: seq<(string, Value)>, keys: seq<string>, p: Protocol)
    : (r: Result<(Protocol, seq<FactorRange>)>)
    requires p.entries == entries
  {
    var ranges :- ReadRanges(entries, keys);
    if keys == [] then Failure(EmptyFactorList)
    else if p.presentation == RandomizedSequence && !Present(entries, "shuffling-seed") then Failure(MissingKey)
    else ReadResume(entries, p, ranges)
  }

  /**
   * What init_experiment reads from the protocol dictionary, in the order it
   * reads it, as the typed protocol the builders take. The timing keys are
   * read only once an episode is written: in Single-Stimulus mode at the
   * first key naming a factor, in sequence mode at the first turn of the
   * episode loop; 'starting-index' becomes the tiled entry the loop resumes at.
   */
  function ReadProtocol(entries: seq<(string, Value)>, keys: seq<string>): (r: Result<(Protocol, seq<FactorRange>)>)
    ensures !Present(entries, "Presentation") ==> r == Failure(MissingKey)
    ensures r.Success? ==> (r.value.0.entries == entries &&
      r.value.0.presentation == PresentationOf(Lookup(entries, "Presentation").value))
  {
    if !Present(entries, "Presentation") then Failure(MissingKey)
    else
      var p := Protocol(entries, PresentationOf(Lookup(entries, "Presentation").value), 0.0, 0.0, 0.0, 0.0, 0, 0);
      if p.presentation != SingleStimulus then ReadSequence(entries, keys, p)
      else if MatchedFactors(entries, keys) == map[] then Success((p, []))
      else WithTiming(p, [])
  }

  /** Under Randomized-Sequence the drawn order is a permutation of the K combinations the protocol defines. */
  ghost predicate ShuffleDrawn(entries: seq<(string, Value)>, keys: seq<string>, perm: seq<nat>)
  {
    var r := ReadProtocol(entries, keys);
    r.Success? && r.value.0.presentation == RandomizedSequence ==> IsPermutation(perm, NoRepeatCount(r.value.1))
  }

  predicate FactorKeys(keys: seq<string>)
  {
    (forall a, b :: 0 <= a < b < |keys| ==> keys[a] != keys[b]) &&
    (forall j :: 0 <= j < |keys| ==> keys[j] !in ReservedColumns)
  }

  /** The schedule init_experiment leaves, or the error it raises on the way. */
  function Initialised(entries: seq<(string, Value)>, keys: seq<string>, runType: string, perm: seq<nat>): Result<Experiment>
    requires FactorKeys(keys) && ShuffleDrawn(entries, keys, perm)
  {
    var (p, ranges) :- ReadProtocol(entries, keys);
    if p.presentation == SingleStimulus then Success(SingleSchedule(entries, p, keys, runType))
    else
      SequenceShape(p, ranges, runType, perm);
      Success(SequenceSchedule(keys, SequenceSpec(p, ranges, runType, perm)))
  }

  /** visual_stim.init_experiment: the protocol reads, then the branch its 'Presentation' selects. */
  method InitExperiment(entries: seq<(string, Value)>, keys: seq<string>, runType: string, perm: seq<nat>)
    returns (r: Result<Experiment>)
    requires FactorKeys(keys) && ShuffleDrawn(entries, keys, perm)
    ensures r == Initialised(entries, keys, runType, perm)
  {
    var read := ReadProtocol(entries, keys);
    if read.Failure? {
      return Failure(read.error);
    }
    var (p, ranges) := read.value;
    if p.presentation == SingleStimulus {
      var x := SingleStimulusSchedule(p, keys, runType);
      return Success(x);
    }
    var c := BuildSequence(p, ranges, runType, perm);
    SequenceShape(p, ranges, runType, perm);
    return Success(SequenceSchedule(keys, c));
  }

  /**
   * The timing fields a successful read hands on are the protocol's timing
   * values whenever an episode is written: in Single-Stimulus mode once a key
   * names a factor, in sequence mode when the loop resumes before the end of
   * the tiled entries.
   */
  lemma {:induction false} TimingRead(entries: seq<(string, Value)>, keys: seq<string>)
    requires ReadProtocol(entries, keys).Success?
    ensures var (p, ranges) := ReadProtocol(entries, keys).value;
      (p.presentation == SingleStimulus && MatchedFactors(entries, keys) != map[] ==> TimingFrom(entries, p)) &&
      (p.presentation != SingleStimulus && p.startingIndex < TiledTotal(p, ranges) ==> TimingFrom(entries, p))
  {
    var p0 := Protocol(entries, PresentationOf(Lookup(entries, "Presentation").value), 0.0, 0.0, 0.0, 0.0, 0, 0);
    if p0.presentation != SingleStimulus {
      SequenceRead(entries, keys, p0);
    }
  }

  /** What a successful sequence-branch read hands on: the factor ranges and the resume facts of ReadResume. */
  lemma {:induction false} SequenceRead(entries: seq<(string, Value)>, keys: seq<string>, p: Protocol)
    requires p.entries == entries && ReadSequence(entries, keys, p).Success?
    ensures keys != [] && ReadRanges(entries, keys).Success?
    ensures p.presentation == RandomizedSequence ==> Present(entries, "shuffling-seed")
    ensures ReadSequence(entries, keys, p) == ReadResume(entries, p, ReadRanges(entries, keys).value)
  {
  }

  /**
   * The sequence branch resumes where Python's index[starting-index:] begins,
   * a negative starting index counting back from the end of the tiled
   * entries and never below -total.
   */
  lemma {:induction false} StartingIndexResume(entries: seq<(string, Value)>, keys: seq<string>)
    requires ReadProtocol(entries, keys).Success?
    requires ReadProtocol(entries, keys).value.0.presentation != SingleStimulus
    ensures var (p, ranges) := ReadProtocol(entries, keys).value;
      Present(entries, "starting-index") && AsInt(Lookup(entries, "starting-index").value).Success? &&
      var s := AsInt(Lookup(entries, "starting-index").value).value;
      s + TiledTotal(p, ranges) >= 0 && p.startingIndex == SliceStart(s, TiledTotal(p, ranges))
  {
    var p0 := Protocol(entries, PresentationOf(Lookup(entries, "Presentation").value), 0.0, 0.0, 0.0, 0.0, 0, 0);
    SequenceRead(entries, keys, p0);
  }

  /**
   * init_experiment fails fast on a missing key: when it returns a schedule,
   * 'Presentation' was there; outside Single-Stimulus mode so were the keys
   * of every factor, 'N-repeat', 'starting-index' and, for
   * Randomized-Sequence, 'shuffling-seed'; and once the schedule has an
   * episode, every timing key was there.
   */
  lemma {:induction false} InitReadsPresent(entries: seq<(string, Value)>, keys: seq<string>, runType: string, perm: seq<nat>)
    requires FactorKeys(keys) && ShuffleDrawn(entries, keys, perm)
    requires Initialised(entries, keys, runType, perm).Success?
    ensures Present(entries, "Presentation")
    ensures var pres := PresentationOf(Lookup(entries, "Presentation").value);
      pres != SingleStimulus ==>
        keys != [] && Present(entries, "N-repeat") && Present(entries, "starting-index") &&
        (pres == RandomizedSequence ==> Present(entries, "shuffling-seed")) &&
        forall j :: 0 <= j < |keys| ==> !RangeKeyMissing(entries, keys[j])
    ensures var x := Initialised(entries, keys, runType, perm).value;
      "index" in x && x["index"] != [] ==> forall j :: 0 <= j < 4 ==> Present(entries, TimingKeys[j])
  {
    var (p, ranges) := ReadProtocol(entries, keys).value;
    if p.presentation != SingleStimulus {
      SequenceRead(entries, keys, Protocol(entries, p.presentation, 0.0, 0.0, 0.0, 0.0, 0, 0));
    }
    var x := Initialised(entries, keys, runType, perm).value;
    if "index" in x && x["index"] != [] {
      EpisodeReadsTiming(entries, keys, runType, perm);
    }
  }

  /** A schedule with an episode was written after the timing keys were read. */
  lemma {:induction false} EpisodeReadsTiming(entries: seq<(string, Value)>, keys: seq<string>, runType: string, perm: seq<nat>)
    requires FactorKeys(keys) && ShuffleDrawn(entries, keys, perm)
    requires Initialised(entries, keys, runType, perm).Success?
    requires var x := Initialised(entries, keys, runType, perm).value; "index" in x && x["index"] != []
    ensures var (p, _) := ReadProtocol(entries, keys).value; TimingFrom(entries, p)
  {
    var (p, ranges) := ReadProtocol(entries, keys).value;
    var x := Initialised(entries, keys, runType, perm).value;
    TimingRead(entries, keys);
    if p.presentation == SingleStimulus {
      assert MatchedFactors(entries, keys) != map[];
    } else {
      SequenceShape(p, ranges, runType, perm);
      assert x["index"] == Ints(SequenceSpec(p, ranges, runType, perm).index);
      assert EpisodeCount(p, ranges) > 0;
    }
  }

  /** Factor F's keys, where present, hold an integer count and numeric bounds. */
  predicate TypedFactor(entries: seq<(string, Value)>, key: string)
  {
    (Present(entries, "N-" + key) ==> Lookup(entries, "N-" + key).value.Int?) &&
    (Present(entries, key + "-1") ==> AsReal(Lookup(entries, key + "-1").value).Some?) &&
    (Present(entries, key + "-2") ==> AsReal(Lookup(entries, key + "-2").value).Some?)
  }

  /** Each key init_experiment reads holds, where present, a value of the type it is used as. */
  predicate Typed(entries: seq<(string, Value)>, keys: seq<string>)
  {
    (forall j :: 0 <= j < 4 && Present(entries, TimingKeys[j]) ==> AsReal(Lookup(entries, TimingKeys[j]).value).Some?) &&
    (forall j :: 0 <= j < |keys| ==> TypedFactor(entries, keys[j])) &&
    (Present(entries, "N-repeat") ==> Lookup(entries, "N-repeat").value.Int?) &&
    (Present(entries, "starting-index") ==>
       Lookup(entries, "starting-index").value.Int? && Lookup(entries, "starting-index").value.i >= 0)
  }

  /**
   * On a protocol whose values have their types, init_experiment fails only
   * with a KeyError for a key it reads, or on an empty factor list outside
   * Single-Stimulus mode.
   */
  lemma {:induction false} TypedFailure(entries: seq<(string, Value)>, keys: seq<string>, runType: string, perm: seq<nat>)
    requires FactorKeys(keys) && ShuffleDrawn(entries, keys, perm) && Typed(entries, keys)
    requires Initialised(entries, keys, runType, perm).Failure?
    ensures var e := Initialised(entries, keys, runType, perm).error;
      (e == MissingKey &&
        (!Present(entries, "Presentation") || !Present(entries, "N-repeat") ||
         !Present(entries, "starting-index") || !Present(entries, "shuffling-seed") ||
         (exists j :: 0 <= j < 4 && !Present(entries, TimingKeys[j])) ||
         (exists j :: 0 <= j < |keys| && RangeKeyMissing(entries, keys[j])))) ||
      (e == EmptyFactorList && keys == [])
  {
    assert ReadProtocol(entries, keys).Failure?;
    if Present(entries, "Presentation") {
      var p := Protocol(entries, PresentationOf(Lookup(entries, "Presentation").value), 0.0, 0.0, 0.0, 0.0, 0, 0);
      TypedTiming(entries);
      if p.presentation != SingleStimulus {
        assert ReadProtocol(entries, keys) == ReadSequence(entries, keys, p);
        if ReadRanges(entries, keys).Failure? {
          var j := RangesFailure(entries, keys);
          TypedRange(entries, keys[j]);
        } else if keys != [] && (p.presentation != RandomizedSequence || Present(entries, "shuffling-seed")) {
          TypedResume(entries, p, ReadRanges(entries, keys).value);
        }
      }
    }
  }

  /** With an integer 'N-repeat', a non-negative integer 'starting-index' and numeric timing, ReadResume fails only on an absent key. */
  lemma {:induction false} TypedResume(entries: seq<(string, Value)>, p: Protocol, ranges: seq<FactorRange>)
    requires p.entries == entries && Typed(entries, [])
    requires ReadResume(entries, p, ranges).Failure?
    ensures ReadResume(entries, p, ranges).error == MissingKey
    ensures !Present(entries, "N-repeat") || !Present(entries, "starting-index") ||
      exists j :: 0 <= j < 4 && !Present(entries, TimingKeys[j])
  {
    TypedTiming(entries);
    if Present(entries, "N-repeat") && Present(entries, "starting-index") {
      var n := Lookup(entries, "N-repeat").value.i;
      var s := Lookup(entries, "starting-index").value.i;
      assert RepeatCount(Lookup(entries, "N-repeat").value) == Success(n);
      assert AsInt(Lookup(entries, "starting-index").value) == Success(s);
      assert ResumeAt(s, TiledTotal(p.(nRepeat := n), ranges)).Success?;
    }
  }

  /** A typed factor's read fails only on an absent key. */
  lemma {:induction false} TypedRange(entries: seq<(string, Value)>, key: string)
    requires TypedFactor(entries, key)
    ensures ReadRange(entries, key).Failure? ==> RangeKeyMissing(entries, key) && ReadRange(entries, key).error == MissingKey
  {
  }

  /** Typed timing keys fail only when one is absent. */
  lemma {:induction false} TypedTiming(entries: seq<(string, Value)>)
    requires forall j :: 0 <= j < 4 && Present(entries, TimingKeys[j]) ==> AsReal(Lookup(entries, TimingKeys[j]).value).Some?
    ensures ReadTiming(entries).Failure? ==> ReadTiming(entries).error == MissingKey
  {
  }

  /** The factor ranges of the default drifting full-field grating: spatial-freq, angle, contrast, speed. */
  const DriftingGratingRanges: seq<FactorRange> :=
    [FactorRange(0.001, 2.0, 2), FactorRange(0.0, 180.0, 0), FactorRange(0.2, 1.0, 0), FactorRange(0.1, 50.0, 5)]

  /** The default presentation settings with the drifting grating's keys, in sequence mode. */
  function DefaultProtocol(): Protocol
  {
    Protocol([], "Stimuli-Sequence", 2.0, 5.0, 2.0, -1.0, 2, 0)
  }

  /**
   * With the default presentation and the drifting full-field grating's
   * ranges, K is 2*1*1*5 = 10, the schedule holds 20 episodes, and episode n
   * starts at 2 + 7n seconds and stops 5 seconds later.
   */
  lemma {:induction false} DefaultDriftingGrating()
    ensures NoRepeatCount(DriftingGratingRanges) == 10
    ensures var c := SequenceSpec(DefaultProtocol(), DriftingGratingRanges, "drifting", []);
      |c.index| == 20 &&
      forall n :: 0 <= n < 20 ==>
        c.index[n] == n % 10 && c.repeat[n] == n / 10 &&
        c.timeStart[n] == 2.0 + 7.0 * n as real && c.timeStop[n] == c.timeStart[n] + 5.0
  {
    var ranges := DriftingGratingRanges;
    assert Sizes(Vecs(ranges)) == [2, 1, 1, 5];
    var p := DefaultProtocol();
    SequenceShape(p, ranges, "drifting", []);
    SequenceTimes(p, ranges, "drifting", []);
    var c := SequenceSpec(p, ranges, "drifting", []);
    forall n | 0 <= n < 20
      ensures c.timeStart[n] == 2.0 + 7.0 * n as real
    {
    }
  }
}
