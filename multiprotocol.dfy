/**
 * The multiprotocol composer (multiprotocol.__init__ after the sub-protocols
 * are built): concatenation of the sub-schedules with protocol_id tags and
 * default fillers, one optional joint shuffle, and the rebuilt time axis;
 * then the dispatch of an episode to its sub-protocol.
 */
module Multiprotocol {
  import opened Wrappers
  import opened Values

  const ProtocolId := "protocol_id"
  const TimeDuration := "time_duration"
  const InterstimScreen := "interstim-screen"

  /** Every column key of the sub-schedules. */
  function AllKeys(subs: seq<Experiment>): set<string>
  {
    if subs == [] then {} else AllKeys(subs[..|subs| - 1]) + subs[|subs| - 1].Keys
  }

  /** A key is a composite column exactly when some sub-schedule has it. */
  lemma {:induction false} AllKeysMember(subs: seq<Experiment>, k: string)
    ensures k in AllKeys(subs) <==> exists s :: 0 <= s < |subs| && k in subs[s]
    decreases |subs|
  {
    if subs != [] {
      var init := subs[..|subs| - 1];
      assert forall s :: 0 <= s < |init| ==> init[s] == subs[s];
      AllKeysMember(init, k);
    }
  }

  /**
   * The columns of the composite: protocol_id and every sub-schedule column;
   * the corrected composer always keeps a time_duration column of its own.
   */
  function CompositeKeys(subs: seq<Experiment>, asWritten: bool): set<string>
  {
    if asWritten then {ProtocolId} + AllKeys(subs) else {ProtocolId, TimeDuration} + AllKeys(subs)
  }

  predicate Indexed(subs: seq<Experiment>)
  {
    forall s :: 0 <= s < |subs| ==> "index" in subs[s]
  }

  /** Every column of every sub-schedule has an entry for each of its episodes. */
  predicate Rectangular(subs: seq<Experiment>)
  {
    Indexed(subs) &&
    forall s, k :: 0 <= s < |subs| && k in subs[s] ==> |subs[s][k]| >= |subs[s]["index"]|
  }

  /** The flat list of sub-episodes (sub-protocol, episode), sub-protocol by sub-protocol. */
  function Refs(subs: seq<Experiment>): (r: seq<(nat, nat)>)
    requires Indexed(subs)
    ensures forall e :: 0 <= e < |r| ==> r[e].0 < |subs| && r[e].1 < |subs[r[e].0]["index"]|
  {
    if subs == [] then []
    else
      var n := |subs| - 1;
      var init := subs[..n];
      assert forall s :: 0 <= s < n ==> init[s] == subs[s];
      Refs(init) + seq(|subs[n]["index"]|, i requires 0 <= i < |subs[n]["index"]| => (n, i))
  }

  /** Episode i of sub has numeric start and stop times. */
  predicate EpisodeTimed(sub: Experiment, i: nat)
  {
    "time_start" in sub && "time_stop" in sub &&
    i < |sub["time_start"]| && i < |sub["time_stop"]| &&
    AsReal(sub["time_start"][i]).Some? && AsReal(sub["time_stop"][i]).Some?
  }

  /** time_stop[i] - time_start[i] of a sub-schedule. */
  function Duration(sub: Experiment, i: nat): real
    requires EpisodeTimed(sub, i)
  {
    AsReal(sub["time_stop"][i]).value - AsReal(sub["time_start"][i]).value
  }

  /** The reference is a sub-episode of subs with numeric times. */
  predicate ValidRef(subs: seq<Experiment>, r: (nat, nat))
  {
    r.0 < |subs| && "index" in subs[r.0] && r.1 < |subs[r.0]["index"]| && EpisodeTimed(subs[r.0], r.1)
  }

  /** The references are sub-episodes of subs with numeric times. */
  predicate ValidRefs(subs: seq<Experiment>, refs: seq<(nat, nat)>)
  {
    Rectangular(subs) && forall e :: 0 <= e < |refs| ==> ValidRef(subs, refs[e])
  }

  /**
   * What the key loop appends to column k for episode i of sub: its own value,
   * 0 for a missing interstim-screen, None for any other missing column, and
   * nothing for protocol_id and time_duration when missing.  The corrected
   * composer copies neither protocol_id nor time_duration.
   */
  function Cell(sub: Experiment, k: string, i: nat, asWritten: bool): seq<Value>
    requires k in sub ==> i < |sub[k]|
  {
    if !asWritten && (k == ProtocolId || k == TimeDuration) then []
    else if k in sub then [sub[k][i]]
    else if k == InterstimScreen then [Int(0)]
    else if k != ProtocolId && k != TimeDuration then [Null]
    else []
  }

  /** Everything one sub-episode appends to column k. */
  function Contribution(subs: seq<Experiment>, r: (nat, nat), k: string, asWritten: bool): seq<Value>
    requires Rectangular(subs) && ValidRef(subs, r)
  {
    var sub := subs[r.0];
    Cell(sub, k, r.1, asWritten) +
    (if k == ProtocolId then [Int(r.0)] else []) +
    (if k == TimeDuration then [Num(Duration(sub, r.1))] else [])
  }

  lemma {:induction false} ValidPrefix(subs: seq<Experiment>, refs: seq<(nat, nat)>, n: nat)
    requires ValidRefs(subs, refs) && n <= |refs|
    ensures ValidRefs(subs, refs[..n])
  {
    assert forall e :: 0 <= e < n ==> refs[..n][e] == refs[e];
  }

  /** Column k of the concatenation over the given sub-episodes. */
  function FlatColumn(subs: seq<Experiment>, refs: seq<(nat, nat)>, k: string, asWritten: bool): seq<Value>
    requires ValidRefs(subs, refs)
  {
    if refs == [] then []
    else
      var n := |refs| - 1;
      ValidPrefix(subs, refs, n);
      FlatColumn(subs, refs[..n], k, asWritten) + Contribution(subs, refs[n], k, asWritten)
  }

  /** The concatenation over the given sub-episodes, column by column. */
  function FlatOver(subs: seq<Experiment>, refs: seq<(nat, nat)>, asWritten: bool): Experiment
    requires ValidRefs(subs, refs)
  {
    map k | k in CompositeKeys(subs, asWritten) :: FlatColumn(subs, refs, k, asWritten)
  }

  /** The values each sub-episode appends to column k, one chunk per sub-episode. */
  function Chunks(subs: seq<Experiment>, refs: seq<(nat, nat)>, k: string, asWritten: bool): (r: seq<seq<Value>>)
    requires ValidRefs(subs, refs)
    ensures |r| == |refs| && forall e :: 0 <= e < |refs| ==> r[e] == Contribution(subs, refs[e], k, asWritten)
  {
    seq(|refs|, e requires 0 <= e < |refs| => Contribution(subs, refs[e], k, asWritten))
  }

  /** The chunks one after the other. */
  function Concat<T>(chunks: seq<seq<T>>): seq<T>
  {
    if chunks == [] then [] else Concat(chunks[..|chunks| - 1]) + chunks[|chunks| - 1]
  }

  /** A concatenated column is the concatenation of the sub-episodes' chunks. */
  lemma {:induction false} FlatIsConcat(subs: seq<Experiment>, refs: seq<(nat, nat)>, k: string, asWritten: bool)
    requires ValidRefs(subs, refs)
    ensures FlatColumn(subs, refs, k, asWritten) == Concat(Chunks(subs, refs, k, asWritten))
    decreases |refs|
  {
    if refs != [] {
      var n := |refs| - 1;
      ValidPrefix(subs, refs, n);
      FlatIsConcat(subs, refs[..n], k, asWritten);
      ChunksPrefix(subs, refs, n, k, asWritten);
    }
  }

  /** The chunks of a prefix of the references are a prefix of the chunks. */
  lemma {:induction false} ChunksPrefix(subs: seq<Experiment>, refs: seq<(nat, nat)>, n: nat, k: string, asWritten: bool)
    requires ValidRefs(subs, refs) && n <= |refs| && ValidRefs(subs, refs[..n])
    ensures Chunks(subs, refs, k, asWritten)[..n] == Chunks(subs, refs[..n], k, asWritten)
  {
    var all, init := Chunks(subs, refs, k, asWritten), Chunks(subs, refs[..n], k, asWritten);
    forall e | 0 <= e < n
      ensures all[..n][e] == init[e]
    {
      assert refs[..n][e] == refs[e];
    }
  }

  /** Chunks of one value each concatenate to the list of those values. */
  lemma {:induction false} ConcatSingle<T>(chunks: seq<seq<T>>)
    requires forall e :: 0 <= e < |chunks| ==> |chunks[e]| == 1
    ensures |Concat(chunks)| == |chunks|
    ensures forall e :: 0 <= e < |chunks| ==> Concat(chunks)[e] == chunks[e][0]
    decreases |chunks|
  {
    if chunks != [] {
      var n := |chunks| - 1;
      var init := chunks[..n];
      assert forall e :: 0 <= e < n ==> init[e] == chunks[e];
      ConcatSingle(init);
    }
  }

  /** Chunks of two values each concatenate to their pairs, entries 2e and 2e+1 from chunk e. */
  lemma {:induction false} ConcatDouble<T>(chunks: seq<seq<T>>)
    requires forall e :: 0 <= e < |chunks| ==> |chunks[e]| == 2
    ensures |Concat(chunks)| == 2 * |chunks|
    ensures forall e :: 0 <= e < |chunks| ==>
      Concat(chunks)[2 * e] == chunks[e][0] && Concat(chunks)[2 * e + 1] == chunks[e][1]
    decreases |chunks|
  {
    if chunks != [] {
      var n := |chunks| - 1;
      var init := chunks[..n];
      assert forall e :: 0 <= e < n ==> init[e] == chunks[e];
      ConcatDouble(init);
      assert Concat(chunks) == Concat(init) + chunks[n];
      forall e | 0 <= e < |chunks|
        ensures Concat(chunks)[2 * e] == chunks[e][0] && Concat(chunks)[2 * e + 1] == chunks[e][1]
      {
        if e == n {
          assert 2 * e == |Concat(init)|;
        }
      }
    }
  }

  /** Columns to which every sub-episode contributes exactly one value hold one value per sub-episode. */
  lemma {:induction false} FlatSingle(subs: seq<Experiment>, refs: seq<(nat, nat)>, k: string, asWritten: bool)
    requires ValidRefs(subs, refs)
    requires forall e :: 0 <= e < |refs| ==> |Contribution(subs, refs[e], k, asWritten)| == 1
    ensures |FlatColumn(subs, refs, k, asWritten)| == |refs|
    ensures forall e :: 0 <= e < |refs| ==>
      FlatColumn(subs, refs, k, asWritten)[e] == Contribution(subs, refs[e], k, asWritten)[0]
  {
    FlatIsConcat(subs, refs, k, asWritten);
    ConcatSingle(Chunks(subs, refs, k, asWritten));
  }

  /**
   * Columns to which every sub-episode contributes two values hold them in
   * pairs: entries 2e and 2e+1 come from sub-episode e.
   */
  lemma {:induction false} FlatDouble(subs: seq<Experiment>, refs: seq<(nat, nat)>, k: string, asWritten: bool)
    requires ValidRefs(subs, refs)
    requires forall e :: 0 <= e < |refs| ==> |Contribution(subs, refs[e], k, asWritten)| == 2
    ensures |FlatColumn(subs, refs, k, asWritten)| == 2 * |refs|
    ensures forall e :: 0 <= e < |refs| ==>
      FlatColumn(subs, refs, k, asWritten)[2 * e] == Contribution(subs, refs[e], k, asWritten)[0] &&
      FlatColumn(subs, refs, k, asWritten)[2 * e + 1] == Contribution(subs, refs[e], k, asWritten)[1]
  {
    FlatIsConcat(subs, refs, k, asWritten);
    ConcatDouble(Chunks(subs, refs, k, asWritten));
  }

  /** Every sub-episode contributes at least one value to every composite column. */
  lemma {:induction false} FlatAtLeast(subs: seq<Experiment>, refs: seq<(nat, nat)>, k: string, asWritten: bool)
    requires ValidRefs(subs, refs) && k in CompositeKeys(subs, asWritten)
    ensures |FlatColumn(subs, refs, k, asWritten)| >= |refs|
    decreases |refs|
  {
    if refs != [] {
      var n := |refs| - 1;
      ValidPrefix(subs, refs, n);
      FlatAtLeast(subs, refs[..n], k, asWritten);
      var r := refs[n];
      var sub := subs[r.0];
      if k != ProtocolId && k != TimeDuration && k !in sub {
        if k != InterstimScreen {
          assert Cell(sub, k, r.1, asWritten) == [Null];
        }
      }
    }
  }

  /** One step of the concatenation: column k grows by the new sub-episode's contribution. */
  lemma {:induction false} ColumnStep(subs: seq<Experiment>, refs: seq<(nat, nat)>, r: (nat, nat), k: string, asWritten: bool)
    requires ValidRefs(subs, refs) && ValidRef(subs, r)
    ensures ValidRefs(subs, refs + [r])
    ensures FlatColumn(subs, refs + [r], k, asWritten) ==
      FlatColumn(subs, refs, k, asWritten) + Contribution(subs, r, k, asWritten)
  {
    var refs' := refs + [r];
    assert forall e :: 0 <= e < |refs| ==> refs'[e] == refs[e];
    assert refs'[..|refs|] == refs;
  }

  /** Every episode of every sub-schedule has numeric start and stop times. */
  predicate TimedSubs(subs: seq<Experiment>)
  {
    Rectangular(subs) &&
    forall s, i :: 0 <= s < |subs| && 0 <= i < |subs[s]["index"]| ==> EpisodeTimed(subs[s], i)
  }

  /** The episodes of the first n sub-schedules are sub-episodes of all of them. */
  lemma {:induction false} RefsOfPrefixValid(subs: seq<Experiment>, n: nat)
    requires TimedSubs(subs) && n <= |subs|
    ensures Indexed(subs[..n])
    ensures ValidRefs(subs, Refs(subs[..n]))
  {
    var pre := subs[..n];
    assert forall s :: 0 <= s < n ==> pre[s] == subs[s];
  }

  lemma {:induction false} RefsExtend(subs: seq<Experiment>, n: nat)
    requires Indexed(subs) && n < |subs|
    ensures Indexed(subs[..n]) && Indexed(subs[..n + 1])
    ensures Refs(subs[..n + 1]) ==
      Refs(subs[..n]) + seq(|subs[n]["index"]|, i requires 0 <= i < |subs[n]["index"]| => (n, i))
  {
    var pre := subs[..n + 1];
    assert forall s :: 0 <= s <= n ==> pre[s] == subs[s];
    assert pre[..n] == subs[..n];
  }

  /** The sub-episodes are listed sub-schedule by sub-schedule, each in episode order. */
  lemma {:induction false} RefsOrdered(subs: seq<Experiment>, e: nat, e': nat)
    requires Indexed(subs) && e < e' < |Refs(subs)|
    ensures Refs(subs)[e].0 < Refs(subs)[e'].0 ||
      (Refs(subs)[e].0 == Refs(subs)[e'].0 && Refs(subs)[e].1 < Refs(subs)[e'].1)
    decreases |subs|
  {
    var n := |subs| - 1;
    RefsExtend(subs, n);
    assert subs[..n + 1] == subs;
    var init := Refs(subs[..n]);
    if e' < |init| {
      RefsOrdered(subs[..n], e, e');
    } else if e >= |init| {
    } else {
      assert Refs(subs)[e] == init[e];
      assert init[e].0 < n;
    }
  }

  /** Every episode of every sub-schedule is listed. */
  lemma {:induction false} RefsComplete(subs: seq<Experiment>, s: nat, i: nat)
    requires Indexed(subs) && s < |subs| && i < |subs[s]["index"]|
    ensures (s, i) in Refs(subs)
    decreases |subs|
  {
    var n := |subs| - 1;
    RefsExtend(subs, n);
    assert subs[..n + 1] == subs;
    var tail := seq(|subs[n]["index"]|, i requires 0 <= i < |subs[n]["index"]| => (n, i));
    if s < n {
      assert subs[..n][s] == subs[s];
      RefsComplete(subs[..n], s, i);
    } else {
      assert tail[i] == (s, i);
    }
  }

  /** The sub-episodes of one sub-schedule, up to episode i. */
  function Run(s: nat, i: nat): seq<(nat, nat)>
  {
    seq(i, j requires 0 <= j < i => (s, j))
  }

  /** Every column starts empty; the corrected composer also opens time_duration. */
  function OpenColumns(subs: seq<Experiment>, asWritten: bool): Experiment
  {
    map k | k in CompositeKeys(subs, asWritten) :: []
  }

  /** What the key loop of lines 580-586 appends to column k for one sub-episode, with the two appends after it. */
  lemma {:induction false} KeyUpdate(subs: seq<Experiment>, r: (nat, nat), k: string, asWritten: bool, before: seq<Value>, after: seq<Value>)
    requires Rectangular(subs) && ValidRef(subs, r)
    requires after == before + Cell(subs[r.0], k, r.1, asWritten) +
      (if k == ProtocolId then [Int(r.0)] else []) +
      (if k == TimeDuration then [Num(Duration(subs[r.0], r.1))] else [])
    ensures after == before + Contribution(subs, r, k, asWritten)
  {
  }

  /** The three updates of one sub-episode, as the loop body applies them. */
  function Updated(subs: seq<Experiment>, before: Experiment, r: (nat, nat), asWritten: bool): Experiment
    requires Rectangular(subs) && ValidRef(subs, r)
    requires ProtocolId in before && TimeDuration in before
    requires forall k :: k in before && k in subs[r.0] ==> r.1 < |subs[r.0][k]|
  {
    var sub := subs[r.0];
    var grown := map k | k in before :: before[k] + Cell(sub, k, r.1, asWritten);
    var tagged := grown[ProtocolId := grown[ProtocolId] + [Int(r.0)]];
    tagged[TimeDuration := tagged[TimeDuration] + [Num(Duration(sub, r.1))]]
  }

  /** Column k after the three updates: its cell, then the protocol_id or duration tag. */
  lemma {:induction false} UpdatedAt(subs: seq<Experiment>, before: Experiment, r: (nat, nat), k: string, asWritten: bool)
    requires Rectangular(subs) && ValidRef(subs, r)
    requires ProtocolId in before && TimeDuration in before
    requires forall k :: k in before && k in subs[r.0] ==> r.1 < |subs[r.0][k]|
    requires k in before
    ensures k in Updated(subs, before, r, asWritten)
    ensures Updated(subs, before, r, asWritten)[k] == before[k] + Cell(subs[r.0], k, r.1, asWritten) +
      (if k == ProtocolId then [Int(r.0)] else []) +
      (if k == TimeDuration then [Num(Duration(subs[r.0], r.1))] else [])
  {
    var c := Cell(subs[r.0], k, r.1, asWritten);
    if k == ProtocolId {
      assert before[k] + c + [Int(r.0)] + [] == before[k] + c + [Int(r.0)];
    } else if k == TimeDuration {
      assert before[k] + c + [] + [Num(Duration(subs[r.0], r.1))] == before[k] + c + [Num(Duration(subs[r.0], r.1))];
    } else {
      assert before[k] + c + [] + [] == before[k] + c;
    }
  }

  lemma {:induction false} UpdatedKey(subs: seq<Experiment>, refs: seq<(nat, nat)>, r: (nat, nat), k: string, asWritten: bool)
    requires ValidRefs(subs, refs) && ValidRef(subs, r)
    requires TimeDuration in CompositeKeys(subs, asWritten)
    requires k in CompositeKeys(subs, asWritten)
    ensures ValidRefs(subs, refs + [r])
    ensures Updated(subs, FlatOver(subs, refs, asWritten), r, asWritten)[k] == FlatColumn(subs, refs + [r], k, asWritten)
  {
    ColumnStep(subs, refs, r, k, asWritten);
    var before := FlatOver(subs, refs, asWritten);
    UpdatedAt(subs, before, r, k, asWritten);
    KeyUpdate(subs, r, k, asWritten, before[k], Updated(subs, before, r, asWritten)[k]);
  }

  /** The key loop, then the protocol_id and time_duration appends, for one sub-episode. */
  lemma {:induction false} EpisodeUpdate(subs: seq<Experiment>, refs: seq<(nat, nat)>, r: (nat, nat), asWritten: bool)
    requires ValidRefs(subs, refs) && ValidRef(subs, r)
    requires TimeDuration in CompositeKeys(subs, asWritten)
    ensures ValidRefs(subs, refs + [r])
    ensures Updated(subs, FlatOver(subs, refs, asWritten), r, asWritten) == FlatOver(subs, refs + [r], asWritten)
  {
    ColumnStep(subs, refs, r, ProtocolId, asWritten);
    var final := Updated(subs, FlatOver(subs, refs, asWritten), r, asWritten);
    var target := FlatOver(subs, refs + [r], asWritten);
    assert final.Keys == target.Keys;
    forall k | k in final
      ensures final[k] == target[k]
    {
      UpdatedKey(subs, refs, r, k, asWritten);
    }
  }

  lemma {:induction false} RunAppend(done: seq<(nat, nat)>, s: nat, i: nat)
    ensures done + Run(s, i + 1) == (done + Run(s, i)) + [(s, i)]
  {
    assert Run(s, i + 1) == Run(s, i) + [(s, i)];
  }

  /** Lines 574-576: one empty column per key of any sub-schedule, and protocol_id. */
  method OpenKeys(subs: seq<Experiment>, asWritten: bool) returns (flat: Experiment)
    ensures flat == OpenColumns(subs, asWritten)
  {
    flat := map[ProtocolId := []];
    if !asWritten {
      flat := flat[TimeDuration := []];
    }
    for s := 0 to |subs|
      invariant flat == OpenColumns(subs[..s], asWritten)
    {
      var pre := subs[..s + 1];
      assert pre[..s] == subs[..s];
      assert AllKeys(pre) == AllKeys(subs[..s]) + subs[s].Keys;
      flat := flat + map k | k in subs[s] :: [];
    }
    assert subs[..|subs|] == subs;
  }

  /** Lines 579-587 for sub-schedule s: its episodes are appended in order. */
  method AppendSub(subs: seq<Experiment>, s: nat, flat0: Experiment, asWritten: bool) returns (flat: Experiment)
    requires TimedSubs(subs) && s < |subs|
    requires TimeDuration in CompositeKeys(subs, asWritten)
    requires Indexed(subs[..s]) && ValidRefs(subs, Refs(subs[..s]))
    requires flat0 == FlatOver(subs, Refs(subs[..s]), asWritten)
    ensures Indexed(subs[..s + 1]) && ValidRefs(subs, Refs(subs[..s + 1]))
    ensures flat == FlatOver(subs, Refs(subs[..s + 1]), asWritten)
  {
    flat := flat0;
    var done := Refs(subs[..s]);
    var sub := subs[s];
    assert done + Run(s, 0) == done;
    for i := 0 to |sub["index"]|
      invariant ValidRefs(subs, done + Run(s, i))
      invariant flat == FlatOver(subs, done + Run(s, i), asWritten)
    {
      EpisodeUpdate(subs, done + Run(s, i), (s, i), asWritten);
      flat := map k | k in flat :: flat[k] + Cell(sub, k, i, asWritten);
      flat := flat[ProtocolId := flat[ProtocolId] + [Int(s)]];
      flat := flat[TimeDuration := flat[TimeDuration] + [Num(Duration(sub, i))]];
      RunAppend(done, s, i);
    }
    RefsExtend(subs, s);
    assert Run(s, |sub["index"]|) == seq(|subs[s]["index"]|, i requires 0 <= i < |subs[s]["index"]| => (s, i));
    RefsOfPrefixValid(subs, s + 1);
  }

  /** Lines 572-587: the sub-schedules concatenated, sub-schedule by sub-schedule. */
  method Concatenate(subs: seq<Experiment>, asWritten: bool) returns (flat: Experiment)
    requires TimedSubs(subs)
    requires TimeDuration in CompositeKeys(subs, asWritten)
    ensures ValidRefs(subs, Refs(subs))
    ensures flat == FlatOver(subs, Refs(subs), asWritten)
  {
    flat := OpenKeys(subs, asWritten);
    assert flat == FlatOver(subs, [], asWritten);
    assert subs[..0] == [];
    for s := 0 to |subs|
      invariant Indexed(subs[..s]) && ValidRefs(subs, Refs(subs[..s]))
      invariant flat == FlatOver(subs, Refs(subs[..s]), asWritten)
    {
      flat := AppendSub(subs, s, flat, asWritten);
    }
    assert subs[..|subs|] == subs;
  }

  /** The sub-episodes of sub-schedules whose episodes all carry numeric times are valid references. */
  lemma {:induction false} RefsValid(subs: seq<Experiment>)
    requires TimedSubs(subs)
    ensures ValidRefs(subs, Refs(subs))
  {
    RefsOfPrefixValid(subs, |subs|);
    assert subs[..|subs|] == subs;
  }

  /** Every composite column has at least one entry per sub-episode. */
  lemma {:induction false} ColumnsAtLeast(subs: seq<Experiment>, asWritten: bool)
    requires TimedSubs(subs)
    ensures ValidRefs(subs, Refs(subs))
    ensures forall k :: k in FlatOver(subs, Refs(subs), asWritten) ==>
      |FlatOver(subs, Refs(subs), asWritten)[k]| >= |Refs(subs)|
  {
    RefsValid(subs);
    forall k | k in CompositeKeys(subs, asWritten)
      ensures |FlatColumn(subs, Refs(subs), k, asWritten)| >= |Refs(subs)|
    {
      FlatAtLeast(subs, Refs(subs), k, asWritten);
    }
  }

  // ---------------------------------------------------------------------
  // Shuffling and the rebuilt time axis (lines 589-602)
  // ---------------------------------------------------------------------

  /** The episode order after lines 591-596: the drawn permutation when shuffling is "full", else unchanged. */
  function Order(t: nat, shuffling: string, perm: seq<nat>): (o: seq<nat>)
    requires shuffling == "full" ==> IsPermutation(perm, t)
    ensures |o| == t && forall j :: 0 <= j < t ==> o[j] < t
  {
    if shuffling == "full" then perm else Range(t)
  }

  /** A column indexed by an integer array, as numpy's fancy indexing does. */
  function Select(col: seq<Value>, order: seq<nat>): (r: seq<Value>)
    requires forall j :: 0 <= j < |order| ==> order[j] < |col|
    ensures |r| == |order| && forall j :: 0 <= j < |order| ==> r[j] == col[order[j]]
  {
    seq(|order|, j requires 0 <= j < |order| => col[order[j]])
  }

  /** Every column reordered by the same episode order. */
  function SelectAll(flat: Experiment, order: seq<nat>, t: nat): (r: Experiment)
    requires forall j :: 0 <= j < |order| ==> order[j] < t
    requires forall k :: k in flat ==> |flat[k]| >= t
  {
    map k | k in flat :: Select(flat[k], order)
  }

  /** The number in a cell, 0 for a cell that holds none. */
  function RealOr0(v: Value): real
  {
    match AsReal(v)
    case Some(x) => x
    case None => 0.0
  }

  function Reals(col: seq<Value>): (r: seq<real>)
    ensures |r| == |col| && forall j :: 0 <= j < |col| ==> r[j] == RealOr0(col[j])
  {
    seq(|col|, j requires 0 <= j < |col| => RealOr0(col[j]))
  }

  /** The rebuilt start of episode i: the previous stop plus the previous interstim. */
  function StartAt(prestim: real, td: seq<real>, isi: seq<real>, i: nat): real
    requires i < |td| && |isi| == |td|
  {
    if i == 0 then prestim else StartAt(prestim, td, isi, i - 1) + td[i - 1] + isi[i - 1]
  }

  function Starts(prestim: real, td: seq<real>, isi: seq<real>): seq<real>
    requires |isi| == |td|
  {
    seq(|td|, i requires 0 <= i < |td| => StartAt(prestim, td, isi, i))
  }

  function Stops(prestim: real, td: seq<real>, isi: seq<real>): seq<real>
    requires |isi| == |td|
  {
    seq(|td|, i requires 0 <= i < |td| => StartAt(prestim, td, isi, i) + td[i])
  }

  /**
   * The rebuilt axis is contiguous: it opens at the prestim period, each
   * episode lasts its duration and the next one starts one interstim later.
   */
  lemma {:induction false} RebuiltContiguous(prestim: real, td: seq<real>, isi: seq<real>)
    requires |isi| == |td|
    ensures |Starts(prestim, td, isi)| == |Stops(prestim, td, isi)| == |td|
    ensures |td| > 0 ==> Starts(prestim, td, isi)[0] == prestim
    ensures forall i :: 0 <= i < |td| ==> Stops(prestim, td, isi)[i] == Starts(prestim, td, isi)[i] + td[i]
    ensures forall i :: 0 < i < |td| ==>
      Starts(prestim, td, isi)[i] == Stops(prestim, td, isi)[i - 1] + isi[i - 1]
  {
  }

  /** Closed form: an episode starts after the prestim, all earlier durations and all earlier interstims. */
  lemma {:induction false} StartClosedForm(prestim: real, td: seq<real>, isi: seq<real>, i: nat)
    requires i < |td| && |isi| == |td|
    ensures StartAt(prestim, td, isi, i) == prestim + Sum(td[..i]) + Sum(isi[..i])
  {
    if i > 0 {
      StartClosedForm(prestim, td, isi, i - 1);
      assert td[..i][..i - 1] == td[..i - 1];
      assert isi[..i][..i - 1] == isi[..i - 1];
    }
  }

  /** With no negative duration or interstim, the episodes start in order. */
  lemma {:induction false} StartsNondecreasing(prestim: real, td: seq<real>, isi: seq<real>, i: nat, j: nat)
    requires i <= j < |td| && |isi| == |td|
    requires forall n :: 0 <= n < |td| ==> td[n] >= 0.0 && isi[n] >= 0.0
    ensures StartAt(prestim, td, isi, i) <= StartAt(prestim, td, isi, j)
    decreases j
  {
    if i < j {
      StartsNondecreasing(prestim, td, isi, i, j - 1);
    }
  }

  /** Lines 597-602, in place on the time_start and time_stop arrays. */
  method RebuildTimes(starts: array<real>, stops: array<real>, prestim: real, td: seq<real>, isi: seq<real>)
    requires starts != stops
    requires starts.Length == stops.Length == |td| == |isi| && |td| >= 1
    modifies starts, stops
    ensures starts[..] == Starts(prestim, td, isi)
    ensures stops[..] == Stops(prestim, td, isi)
  {
    starts[0] := prestim;
    stops[0] := prestim + td[0];
    for i := 1 to |td|
      invariant forall j :: 0 <= j < i ==> starts[j] == StartAt(prestim, td, isi, j)
      invariant forall j :: 0 <= j < i ==> stops[j] == StartAt(prestim, td, isi, j) + td[j]
    {
      var start := stops[i - 1] + isi[i - 1];
      assert start == StartAt(prestim, td, isi, i);
      starts[i] := start;
      stops[i] := start + td[i];
    }
    ghost var wantStarts, wantStops := Starts(prestim, td, isi), Stops(prestim, td, isi);
    assert forall j :: 0 <= j < |td| ==> starts[j] == wantStarts[j] && stops[j] == wantStops[j];
    assert starts[..] == wantStarts;
    assert stops[..] == wantStops;
  }

  /** The numeric checks of lines 597-602: every episode's duration and every interstim but the last. */
  predicate RetimeNumeric(sel: Experiment, t: nat)
    requires TimeDuration in sel && "interstim" in sel
    requires |sel[TimeDuration]| == t && |sel["interstim"]| == t
  {
    (forall j :: 0 <= j < t ==> AsReal(sel[TimeDuration][j]).Some?) &&
    (forall j :: 0 <= j && j + 1 < t ==> AsReal(sel["interstim"][j]).Some?)
  }

  /** The reordered schedule with its rebuilt time axis. */
  function Retimed(sel: Experiment, t: nat, prestim: real): Experiment
    requires TimeDuration in sel && "interstim" in sel
    requires |sel[TimeDuration]| == t && |sel["interstim"]| == t
  {
    var td := Reals(sel[TimeDuration]);
    var isi := Reals(sel["interstim"]);
    sel["time_start" := Nums(Starts(prestim, td, isi))]["time_stop" := Nums(Stops(prestim, td, isi))]
  }

  // ---------------------------------------------------------------------
  // The composer
  // ---------------------------------------------------------------------

  predicate AllBuilt(subs: seq<Option<Experiment>>)
  {
    forall s :: 0 <= s < |subs| ==> subs[s].Some?
  }

  function Built(subs: seq<Option<Experiment>>): (u: seq<Experiment>)
    requires AllBuilt(subs)
    ensures |u| == |subs| && forall s :: 0 <= s < |subs| ==> u[s] == subs[s].value
  {
    seq(|subs|, s requires 0 <= s < |subs| => subs[s].value)
  }

  /** Episodes that have any episode have start and stop columns. */
  predicate TimesPresent(subs: seq<Experiment>)
    requires Indexed(subs)
  {
    forall s :: 0 <= s < |subs| && |subs[s]["index"]| > 0 ==> "time_start" in subs[s] && "time_stop" in subs[s]
  }

  /** The drawn order is a permutation of the composite's episodes whenever shuffling is "full". */
  ghost predicate ShuffleReady(subs: seq<Option<Experiment>>, shuffling: string, perm: seq<nat>)
  {
    shuffling == "full" && AllBuilt(subs) && Indexed(Built(subs)) ==> IsPermutation(perm, |Refs(Built(subs))|)
  }

  /** Concatenation, reordering and rebuilt time axis of sub-schedules that passed every check. */
  function Arrange(u: seq<Experiment>, shuffling: string, perm: seq<nat>, prestim: real, asWritten: bool): Result<Experiment>
    requires TimedSubs(u) && TimeDuration in CompositeKeys(u, asWritten) && "interstim" in AllKeys(u)
    requires shuffling == "full" ==> IsPermutation(perm, |Refs(u)|)
  {
    var t := |Refs(u)|;
    ColumnsAtLeast(u, asWritten);
    var sel := SelectAll(FlatOver(u, Refs(u), asWritten), Order(t, shuffling, perm), t);
    if !RetimeNumeric(sel, t) then Failure(NonNumericValue) else Success(Retimed(sel, t, prestim))
  }

  /**
   * The composite schedule of lines 571-602, or the error the code runs into.
   * asWritten selects the code's own handling of time_duration; the corrected
   * composer keeps one duration per episode.
   */
  function Composed(subs: seq<Option<Experiment>>, shuffling: string, perm: seq<nat>, prestim: real, asWritten: bool): Result<Experiment>
    requires ShuffleReady(subs, shuffling, perm)
  {
    if !AllBuilt(subs) then Failure(SubProtocolNotBuilt)
    else
      var u := Built(subs);
      if u == [] || !Indexed(u) then Failure(MissingColumn)
      else if !Rectangular(u) then Failure(MalformedSubSchedule)
      else if !TimesPresent(u) then Failure(MissingColumn)
      else if !TimedSubs(u) then Failure(NonNumericValue)
      else if |Refs(u)| == 0 then Failure(EmptySchedule)
      else if TimeDuration !in CompositeKeys(u, asWritten) || "interstim" !in AllKeys(u) then Failure(MissingColumn)
      else Arrange(u, shuffling, perm, prestim, asWritten)
  }

  /**
   * A composition succeeds only when every sub-protocol was built, every
   * episode has numeric start and stop times, there is at least one episode
   * and the duration and interstim columns exist; it is then the arrangement
   * of the built sub-schedules.
   */
  lemma {:induction false} ComposedSuccess(subs: seq<Option<Experiment>>, shuffling: string, perm: seq<nat>, prestim: real, asWritten: bool)
    requires ShuffleReady(subs, shuffling, perm)
    requires Composed(subs, shuffling, perm, prestim, asWritten).Success?
    ensures AllBuilt(subs) && |subs| > 0 && TimedSubs(Built(subs)) && |Refs(Built(subs))| > 0
    ensures TimeDuration in CompositeKeys(Built(subs), asWritten) && "interstim" in AllKeys(Built(subs))
    ensures shuffling == "full" ==> IsPermutation(perm, |Refs(Built(subs))|)
    ensures Composed(subs, shuffling, perm, prestim, asWritten) == Arrange(Built(subs), shuffling, perm, prestim, asWritten)
  {
  }

  /** The error of the concatenation loops (lines 571-588), if they raise one. */
  function JoinFailure(subs: seq<Option<Experiment>>): Option<Error>
  {
    if !AllBuilt(subs) then Some(SubProtocolNotBuilt)
    else
      var u := Built(subs);
      if u == [] || !Indexed(u) then Some(MissingColumn)
      else if !Rectangular(u) then Some(MalformedSubSchedule)
      else if !TimesPresent(u) then Some(MissingColumn)
      else if !TimedSubs(u) then Some(NonNumericValue)
      else None
  }

  /** protocol['shuffling'] == 'full' compares a text; any other value is simply not "full". */
  function ShufflingIn(protocol: map<string, Value>): string
  {
    if "shuffling" in protocol && protocol["shuffling"].Text? then protocol["shuffling"].s else ""
  }

  const PrestimKey := "presentation-prestim-period"

  /**
   * The composer's own keys (lines 592-599): 'shuffling', 'shuffling-seed'
   * only under full shuffling, then the prestim period, which an empty
   * composite cannot store and which must be a number to be stored in the
   * start column.
   */
  function ComposerKeys(protocol: map<string, Value>, t: nat): (r: Result<(string, real)>)
    ensures r.Success? ==> (r.value.0 == ShufflingIn(protocol) && PrestimKey in protocol &&
      AsReal(protocol[PrestimKey]) == Some(r.value.1))
  {
    if "shuffling" !in protocol then Failure(MissingKey)
    else if ShufflingIn(protocol) == "full" && "shuffling-seed" !in protocol then Failure(MissingKey)
    else if PrestimKey !in protocol then Failure(MissingKey)
    else match AsReal(protocol[PrestimKey])
      case None => if t == 0 then Failure(EmptySchedule) else Failure(NonNumericValue)
      case Some(prestim) => Success((ShufflingIn(protocol), prestim))
  }

  /**
   * Lines 571-604 reading the multiprotocol's own dictionary: the sub-schedules
   * are joined first, then the composer's own keys are read, then the
   * composite is shuffled and retimed.
   */
  function ComposedFrom(subs: seq<Option<Experiment>>, protocol: map<string, Value>, perm: seq<nat>, asWritten: bool)
    : Result<Experiment>
    requires ShuffleReady(subs, ShufflingIn(protocol), perm)
  {
    if JoinFailure(subs).Some? then Failure(JoinFailure(subs).value)
    else
      var (shuffling, prestim) :- ComposerKeys(protocol, |Refs(Built(subs))|);
      Composed(subs, shuffling, perm, prestim, asWritten)
  }

  /**
   * The composer's own keys: once the sub-schedules join, a missing
   * 'shuffling', a missing 'shuffling-seed' under full shuffling, or a missing
   * prestim period is a KeyError; a failing join raises before any of them is
   * read; and with all three present and a numeric prestim period the result
   * is the composition of that shuffling and prestim.
   */
  lemma {:induction false} ComposedReads(subs: seq<Option<Experiment>>, protocol: map<string, Value>, perm: seq<nat>, asWritten: bool)
    requires ShuffleReady(subs, ShufflingIn(protocol), perm)
    ensures JoinFailure(subs).Some? ==>
      ComposedFrom(subs, protocol, perm, asWritten) == Failure(JoinFailure(subs).value) &&
      Composed(subs, ShufflingIn(protocol), perm, 0.0, asWritten) == Failure(JoinFailure(subs).value)
    ensures JoinFailure(subs).None? ==>
      (ComposedFrom(subs, protocol, perm, asWritten) == Failure(MissingKey) <==>
        "shuffling" !in protocol || PrestimKey !in protocol ||
        (ShufflingIn(protocol) == "full" && "shuffling-seed" !in protocol))
    ensures ("shuffling" in protocol && PrestimKey in protocol && AsReal(protocol[PrestimKey]).Some? &&
      (ShufflingIn(protocol) == "full" ==> "shuffling-seed" in protocol)) ==>
      ComposedFrom(subs, protocol, perm, asWritten) ==
        Composed(subs, ShufflingIn(protocol), perm, AsReal(protocol[PrestimKey]).value, asWritten)
  {
    if JoinFailure(subs).None? && "shuffling" in protocol && PrestimKey in protocol &&
       (ShufflingIn(protocol) == "full" ==> "shuffling-seed" in protocol) {
      var pv := AsReal(protocol[PrestimKey]);
      if pv.Some? {
        ComposedNeverMissingKey(subs, ShufflingIn(protocol), perm, pv.value, asWritten);
      }
    }
  }

  /** Once the protocol's keys are read, nothing in the composition is a KeyError. */
  lemma {:induction false} ComposedNeverMissingKey(subs: seq<Option<Experiment>>, shuffling: string, perm: seq<nat>, prestim: real, asWritten: bool)
    requires ShuffleReady(subs, shuffling, perm)
    ensures Composed(subs, shuffling, perm, prestim, asWritten) != Failure(MissingKey)
  {
    if AllBuilt(subs) {
      var u := Built(subs);
      if u != [] && Indexed(u) && Rectangular(u) && TimesPresent(u) && TimedSubs(u) && |Refs(u)| > 0 &&
         TimeDuration in CompositeKeys(u, asWritten) && "interstim" in AllKeys(u) {
        var t := |Refs(u)|;
        ColumnsAtLeast(u, asWritten);
        var sel := SelectAll(FlatOver(u, Refs(u), asWritten), Order(t, shuffling, perm), t);
        assert Arrange(u, shuffling, perm, prestim, asWritten) ==
          if !RetimeNumeric(sel, t) then Failure(NonNumericValue) else Success(Retimed(sel, t, prestim));
      }
    }
  }

  /** The composer, loop by loop, once its own keys are read. */
  method ComposeTimed(subs: seq<Option<Experiment>>, shuffling: string, perm: seq<nat>, prestim: real, asWritten: bool)
    returns (r: Result<Experiment>)
    requires ShuffleReady(subs, shuffling, perm)
    ensures r == Composed(subs, shuffling, perm, prestim, asWritten)
  {
    if !AllBuilt(subs) {
      return Failure(SubProtocolNotBuilt);
    }
    var u := Built(subs);
    if u == [] || !Indexed(u) {
      return Failure(MissingColumn);
    }
    if !Rectangular(u) {
      return Failure(MalformedSubSchedule);
    }
    if !TimesPresent(u) {
      return Failure(MissingColumn);
    }
    if !TimedSubs(u) {
      return Failure(NonNumericValue);
    }
    var t := |Refs(u)|;
    if t == 0 {
      return Failure(EmptySchedule);
    }
    if TimeDuration !in CompositeKeys(u, asWritten) || "interstim" !in AllKeys(u) {
      return Failure(MissingColumn);
    }
    var flat := Concatenate(u, asWritten);
    ColumnsAtLeast(u, asWritten);
    var order := Order(t, shuffling, perm);
    var sel := map k | k in flat :: Select(flat[k], order);
    assert sel == SelectAll(flat, order, t);
    if !RetimeNumeric(sel, t) {
      return Failure(NonNumericValue);
    }
    var starts := new real[t];
    var stops := new real[t];
    RebuildTimes(starts, stops, prestim, Reals(sel[TimeDuration]), Reals(sel["interstim"]));
    r := Success(sel["time_start" := Nums(starts[..])]["time_stop" := Nums(stops[..])]);
  }

  /** The composer: the concatenation loops, the reads of its own keys, then the timed composition. */
  method Compose(subs: seq<Option<Experiment>>, protocol: map<string, Value>, perm: seq<nat>, asWritten: bool)
    returns (r: Result<Experiment>)
    requires ShuffleReady(subs, ShufflingIn(protocol), perm)
    ensures r == ComposedFrom(subs, protocol, perm, asWritten)
  {
    var join := JoinFailure(subs);
    if join.Some? {
      return Failure(join.value);
    }
    var read := ComposerKeys(protocol, |Refs(Built(subs))|);
    if read.Failure? {
      return Failure(read.error);
    }
    var (shuffling, prestim) := read.value;
    r := ComposeTimed(subs, shuffling, perm, prestim, asWritten);
  }

  // ---------------------------------------------------------------------
  // What the composite schedule holds
  // ---------------------------------------------------------------------

  /** The sub-episode shown as composite episode j. */
  function Shown(u: seq<Experiment>, shuffling: string, perm: seq<nat>, j: nat): (r: (nat, nat))
    requires Indexed(u) && j < |Refs(u)|
    requires shuffling == "full" ==> IsPermutation(perm, |Refs(u)|)
    ensures r.0 < |u| && r.1 < |u[r.0]["index"]|
  {
    Refs(u)[Order(|Refs(u)|, shuffling, perm)[j]]
  }

  /** The value a sub-episode gives a copied column: its own, 0 for interstim-screen, else None. */
  function CellValue(sub: Experiment, k: string, i: nat): Value
    requires k in sub ==> i < |sub[k]|
  {
    if k in sub then sub[k][i] else if k == InterstimScreen then Int(0) else Null
  }

  /** Columns other than protocol_id and time_duration receive one cell per sub-episode. */
  lemma {:induction false} CopiedOnce(u: seq<Experiment>, k: string, asWritten: bool)
    requires TimedSubs(u) && k != ProtocolId && k != TimeDuration
    ensures ValidRefs(u, Refs(u))
    ensures forall e :: 0 <= e < |Refs(u)| ==>
      Contribution(u, Refs(u)[e], k, asWritten) == [CellValue(u[Refs(u)[e].0], k, Refs(u)[e].1)]
  {
    RefsValid(u);
  }

  /** The protocol_id column receives the position of the sub-schedule, once per sub-episode. */
  lemma {:induction false} TaggedOnce(u: seq<Experiment>, asWritten: bool)
    requires TimedSubs(u)
    requires asWritten ==> forall s :: 0 <= s < |u| ==> ProtocolId !in u[s]
    ensures ValidRefs(u, Refs(u))
    ensures forall e :: 0 <= e < |Refs(u)| ==>
      Contribution(u, Refs(u)[e], ProtocolId, asWritten) == [Int(Refs(u)[e].0)]
  {
    RefsValid(u);
  }

  /** A successful composition's columns before any time-axis rewrite. */
  lemma {:induction false} ArrangeUnfold(u: seq<Experiment>, shuffling: string, perm: seq<nat>, prestim: real, asWritten: bool, k: string, j: nat)
    requires TimedSubs(u) && TimeDuration in CompositeKeys(u, asWritten) && "interstim" in AllKeys(u)
    requires shuffling == "full" ==> IsPermutation(perm, |Refs(u)|)
    requires Arrange(u, shuffling, perm, prestim, asWritten).Success?
    requires k in CompositeKeys(u, asWritten) && k != "time_start" && k != "time_stop"
    requires j < |Refs(u)|
    ensures ValidRefs(u, Refs(u))
    ensures |FlatColumn(u, Refs(u), k, asWritten)| >= |Refs(u)|
    ensures k in Arrange(u, shuffling, perm, prestim, asWritten).value
    ensures |Arrange(u, shuffling, perm, prestim, asWritten).value[k]| == |Refs(u)|
    ensures Arrange(u, shuffling, perm, prestim, asWritten).value[k][j] ==
      FlatColumn(u, Refs(u), k, asWritten)[Order(|Refs(u)|, shuffling, perm)[j]]
  {
    var sel := ArrangeIsRetimed(u, shuffling, perm, prestim, asWritten);
    var flat := FlatOver(u, Refs(u), asWritten);
    assert k in flat && flat[k] == FlatColumn(u, Refs(u), k, asWritten);
    RetimedKeeps(sel, |Refs(u)|, prestim, k);
  }

  /** Rebuilding the time axis leaves every other column as it was. */
  lemma {:induction false} RetimedKeeps(sel: Experiment, t: nat, prestim: real, k: string)
    requires RetimeReady(sel, t) && k in sel && k != "time_start" && k != "time_stop"
    ensures k in Retimed(sel, t, prestim) && Retimed(sel, t, prestim)[k] == sel[k]
  {
  }

  /**
   * Every copied column of composite episode j holds the value of the
   * sub-episode shown there, 0 for a missing interstim-screen and None for
   * any other missing column.
   */
  lemma {:induction false} ComposedCell(u: seq<Experiment>, shuffling: string, perm: seq<nat>, prestim: real, asWritten: bool, k: string, j: nat)
    requires TimedSubs(u) && TimeDuration in CompositeKeys(u, asWritten) && "interstim" in AllKeys(u)
    requires shuffling == "full" ==> IsPermutation(perm, |Refs(u)|)
    requires Arrange(u, shuffling, perm, prestim, asWritten).Success?
    requires k in CompositeKeys(u, asWritten)
    requires k !in {ProtocolId, TimeDuration, "time_start", "time_stop"}
    requires j < |Refs(u)|
    ensures k in Arrange(u, shuffling, perm, prestim, asWritten).value
    ensures |Arrange(u, shuffling, perm, prestim, asWritten).value[k]| == |Refs(u)|
    ensures Rectangular(u)
    ensures Arrange(u, shuffling, perm, prestim, asWritten).value[k][j] ==
      CellValue(u[Shown(u, shuffling, perm, j).0], k, Shown(u, shuffling, perm, j).1)
  {
    ArrangeUnfold(u, shuffling, perm, prestim, asWritten, k, j);
    CopiedOnce(u, k, asWritten);
    FlatSingle(u, Refs(u), k, asWritten);
  }

  /** protocol_id of composite episode j is the position of the sub-protocol it comes from. */
  lemma {:induction false} ComposedProtocolId(u: seq<Experiment>, shuffling: string, perm: seq<nat>, prestim: real, asWritten: bool, j: nat)
    requires TimedSubs(u) && TimeDuration in CompositeKeys(u, asWritten) && "interstim" in AllKeys(u)
    requires shuffling == "full" ==> IsPermutation(perm, |Refs(u)|)
    requires Arrange(u, shuffling, perm, prestim, asWritten).Success?
    requires asWritten ==> forall s :: 0 <= s < |u| ==> ProtocolId !in u[s]
    requires j < |Refs(u)|
    ensures ProtocolId in Arrange(u, shuffling, perm, prestim, asWritten).value
    ensures |Arrange(u, shuffling, perm, prestim, asWritten).value[ProtocolId]| == |Refs(u)|
    ensures Arrange(u, shuffling, perm, prestim, asWritten).value[ProtocolId][j] == Int(Shown(u, shuffling, perm, j).0)
  {
    ArrangeUnfold(u, shuffling, perm, prestim, asWritten, ProtocolId, j);
    TaggedOnce(u, asWritten);
    FlatSingle(u, Refs(u), ProtocolId, asWritten);
  }

  /** The corrected composer appends exactly one duration per sub-episode: stop minus start. */
  lemma {:induction false} TimedOnce(u: seq<Experiment>)
    requires TimedSubs(u)
    ensures ValidRefs(u, Refs(u))
    ensures forall e :: 0 <= e < |Refs(u)| ==>
      Contribution(u, Refs(u)[e], TimeDuration, false) == [Num(Duration(u[Refs(u)[e].0], Refs(u)[e].1))]
  {
    RefsValid(u);
  }

  /** The composer as written appends two values per sub-episode when every sub-schedule has time_duration. */
  lemma {:induction false} TimedTwice(u: seq<Experiment>)
    requires TimedSubs(u)
    requires forall s :: 0 <= s < |u| ==> TimeDuration in u[s]
    ensures ValidRefs(u, Refs(u))
    ensures forall e :: 0 <= e < |Refs(u)| ==>
      Contribution(u, Refs(u)[e], TimeDuration, true) ==
        [u[Refs(u)[e].0][TimeDuration][Refs(u)[e].1], Num(Duration(u[Refs(u)[e].0], Refs(u)[e].1))]
  {
    RefsValid(u);
  }

  /** Corrected composer: composite episode j carries the duration of the sub-episode shown there. */
  lemma {:induction false} ComposedDuration(u: seq<Experiment>, shuffling: string, perm: seq<nat>, prestim: real, j: nat)
    requires TimedSubs(u) && "interstim" in AllKeys(u)
    requires shuffling == "full" ==> IsPermutation(perm, |Refs(u)|)
    requires Arrange(u, shuffling, perm, prestim, false).Success?
    requires j < |Refs(u)|
    ensures TimeDuration in Arrange(u, shuffling, perm, prestim, false).value
    ensures |Arrange(u, shuffling, perm, prestim, false).value[TimeDuration]| == |Refs(u)|
    ensures EpisodeTimed(u[Shown(u, shuffling, perm, j).0], Shown(u, shuffling, perm, j).1)
    ensures Arrange(u, shuffling, perm, prestim, false).value[TimeDuration][j] ==
      Num(Duration(u[Shown(u, shuffling, perm, j).0], Shown(u, shuffling, perm, j).1))
  {
    ArrangeUnfold(u, shuffling, perm, prestim, false, TimeDuration, j);
    TimedOnce(u);
    FlatSingle(u, Refs(u), TimeDuration, false);
  }

  /** A column holding pairs: entry o is the first or second value of pair o / 2. */
  lemma {:induction false} PairEntry(flat: seq<Value>, pairs: seq<(Value, Value)>, o: nat)
    requires |flat| == 2 * |pairs| && o < |flat|
    requires forall e :: 0 <= e < |pairs| ==> flat[2 * e] == pairs[e].0 && flat[2 * e + 1] == pairs[e].1
    ensures o / 2 < |pairs|
    ensures flat[o] == if o % 2 == 0 then pairs[o / 2].0 else pairs[o / 2].1
  {
    var half := o / 2;
    assert flat[2 * half] == pairs[half].0 && flat[2 * half + 1] == pairs[half].1;
    if o % 2 == 0 {
      assert o == 2 * half;
    } else {
      assert o == 2 * half + 1;
    }
  }

  /** The time_duration pairs of the composer as written: the copied value, then stop minus start. */
  function DurationPairs(u: seq<Experiment>): (r: seq<(Value, Value)>)
    requires TimedSubs(u)
    requires forall s :: 0 <= s < |u| ==> TimeDuration in u[s]
    ensures |r| == |Refs(u)|
  {
    var refs := Refs(u);
    seq(|refs|, e requires 0 <= e < |refs| =>
      (u[refs[e].0][TimeDuration][refs[e].1], Num(Duration(u[refs[e].0], refs[e].1))))
  }

  lemma {:induction false} FlatDurationsAsWritten(u: seq<Experiment>)
    requires TimedSubs(u)
    requires forall s :: 0 <= s < |u| ==> TimeDuration in u[s]
    ensures ValidRefs(u, Refs(u))
    ensures |FlatColumn(u, Refs(u), TimeDuration, true)| == 2 * |DurationPairs(u)|
    ensures forall e :: 0 <= e < |DurationPairs(u)| ==>
      FlatColumn(u, Refs(u), TimeDuration, true)[2 * e] == DurationPairs(u)[e].0 &&
      FlatColumn(u, Refs(u), TimeDuration, true)[2 * e + 1] == DurationPairs(u)[e].1
  {
    TimedTwice(u);
    FlatDouble(u, Refs(u), TimeDuration, true);
  }

  /**
   * The composer as written: the time_duration column is twice as long as
   * the schedule, so composite episode j takes the entry at position order[j]
   * of the pair list, that is a value of sub-episode order[j] / 2.
   */
  lemma {:induction false} ComposedDurationAsWritten(u: seq<Experiment>, shuffling: string, perm: seq<nat>, prestim: real, j: nat, c: Experiment)
    requires TimedSubs(u) && TimeDuration in AllKeys(u) && "interstim" in AllKeys(u)
    requires forall s :: 0 <= s < |u| ==> TimeDuration in u[s]
    requires shuffling == "full" ==> IsPermutation(perm, |Refs(u)|)
    requires Arrange(u, shuffling, perm, prestim, true) == Success(c)
    requires j < |Refs(u)|
    ensures TimeDuration in c && |c[TimeDuration]| == |Refs(u)|
    ensures
      var o := Order(|Refs(u)|, shuffling, perm)[j];
      c[TimeDuration][j] == if o % 2 == 0 then DurationPairs(u)[o / 2].0 else DurationPairs(u)[o / 2].1
  {
    ArrangeUnfold(u, shuffling, perm, prestim, true, TimeDuration, j);
    FlatDurationsAsWritten(u);
    PairEntry(FlatColumn(u, Refs(u), TimeDuration, true), DurationPairs(u), Order(|Refs(u)|, shuffling, perm)[j]);
  }

  /** A successful arrangement is the reordered concatenation with its time axis rebuilt. */
  lemma {:induction false} ArrangeIsRetimed(u: seq<Experiment>, shuffling: string, perm: seq<nat>, prestim: real, asWritten: bool)
      returns (sel: Experiment)
    requires TimedSubs(u) && TimeDuration in CompositeKeys(u, asWritten) && "interstim" in AllKeys(u)
    requires shuffling == "full" ==> IsPermutation(perm, |Refs(u)|)
    requires Arrange(u, shuffling, perm, prestim, asWritten).Success?
    ensures ValidRefs(u, Refs(u))
    ensures forall k :: k in FlatOver(u, Refs(u), asWritten) ==> |FlatOver(u, Refs(u), asWritten)[k]| >= |Refs(u)|
    ensures sel == SelectAll(FlatOver(u, Refs(u), asWritten), Order(|Refs(u)|, shuffling, perm), |Refs(u)|)
    ensures RetimeReady(sel, |Refs(u)|)
    ensures Arrange(u, shuffling, perm, prestim, asWritten).value == Retimed(sel, |Refs(u)|, prestim)
  {
    ColumnsAtLeast(u, asWritten);
    sel := SelectAll(FlatOver(u, Refs(u), asWritten), Order(|Refs(u)|, shuffling, perm), |Refs(u)|);
  }

  /** Cells of a rebuilt axis: each stop is its start plus the duration, each start the previous stop plus the interstim. */
  lemma {:induction false} AxisCells(ts: seq<Value>, te: seq<Value>, td: seq<Value>, isi: seq<Value>, prestim: real, j: nat)
    requires |td| == |isi| && j < |td|
    requires ts == Nums(Starts(prestim, Reals(td), Reals(isi)))
    requires te == Nums(Stops(prestim, Reals(td), Reals(isi)))
    ensures |ts| == |te| == |td|
    ensures te[j] == Num(RealOr0(ts[j]) + RealOr0(td[j]))
    ensures j == 0 ==> ts[j] == Num(prestim)
    ensures j > 0 ==> ts[j] == Num(RealOr0(te[j - 1]) + RealOr0(isi[j - 1]))
  {
    RebuiltContiguous(prestim, Reals(td), Reals(isi));
  }

  /**
   * The rebuilt axis is contiguous: episode j starts one interstim after the
   * previous one stops, the first at the prestim period, and stops after
   * its own time_duration entry.
   */
  lemma {:induction false} RetimedFollows(sel: Experiment, t: nat, prestim: real, j: nat)
    requires TimeDuration in sel && "interstim" in sel
    requires |sel[TimeDuration]| == t && |sel["interstim"]| == t && j < t
    ensures
      var c := Retimed(sel, t, prestim);
      "time_start" in c && "time_stop" in c && "interstim" in c && TimeDuration in c &&
      |c["time_start"]| == |c["time_stop"]| == |c["interstim"]| == |c[TimeDuration]| == t &&
      c["time_stop"][j] == Num(RealOr0(c["time_start"][j]) + RealOr0(c[TimeDuration][j])) &&
      (j == 0 ==> c["time_start"][j] == Num(prestim)) &&
      (j > 0 ==> c["time_start"][j] == Num(RealOr0(c["time_stop"][j - 1]) + RealOr0(c["interstim"][j - 1])))
  {
    var c := Retimed(sel, t, prestim);
    assert c[TimeDuration] == sel[TimeDuration] && c["interstim"] == sel["interstim"];
    AxisCells(c["time_start"], c["time_stop"], c[TimeDuration], c["interstim"], prestim, j);
  }

  /** Corrected composer: composite episode j lasts exactly as long as the sub-episode shown there. */
  lemma {:induction false} ComposedEpisodeLasts(u: seq<Experiment>, shuffling: string, perm: seq<nat>, prestim: real, j: nat)
    requires TimedSubs(u) && "interstim" in AllKeys(u)
    requires shuffling == "full" ==> IsPermutation(perm, |Refs(u)|)
    requires Arrange(u, shuffling, perm, prestim, false).Success?
    requires j < |Refs(u)|
    ensures EpisodeTimed(u[Shown(u, shuffling, perm, j).0], Shown(u, shuffling, perm, j).1)
    ensures EpisodeLasts(Arrange(u, shuffling, perm, prestim, false).value, |Refs(u)|, j,
      Duration(u[Shown(u, shuffling, perm, j).0], Shown(u, shuffling, perm, j).1))
  {
    var sel := ArrangeIsRetimed(u, shuffling, perm, prestim, false);
    ComposedDuration(u, shuffling, perm, prestim, j);
    RetimedLasts(sel, |Refs(u)|, prestim, j, Duration(u[Shown(u, shuffling, perm, j).0], Shown(u, shuffling, perm, j).1));
  }

  /** Columns a schedule needs before its time axis is rebuilt over t episodes. */
  predicate RetimeReady(sel: Experiment, t: nat)
  {
    TimeDuration in sel && "interstim" in sel && |sel[TimeDuration]| == t && |sel["interstim"]| == t
  }

  /** Episode j of a t-episode schedule stops d after it starts. */
  predicate EpisodeLasts(c: Experiment, t: nat, j: nat, d: real)
  {
    "time_start" in c && "time_stop" in c && |c["time_start"]| == t && |c["time_stop"]| == t &&
    j < t && c["time_stop"][j] == Num(RealOr0(c["time_start"][j]) + d)
  }

  /** An episode whose time_duration cell holds d stops d after it starts on the rebuilt axis. */
  lemma {:induction false} RetimedLasts(sel: Experiment, t: nat, prestim: real, j: nat, d: real)
    requires RetimeReady(sel, t) && j < t
    requires Retimed(sel, t, prestim)[TimeDuration][j] == Num(d)
    ensures EpisodeLasts(Retimed(sel, t, prestim), t, j, d)
  {
    RetimedFollows(sel, t, prestim, j);
  }

  // ---------------------------------------------------------------------
  // Two one-episode sub-protocols, both starting at 2 s, 2 s apart
  // ---------------------------------------------------------------------

  function ExampleSub(stop: real): Experiment
  {
    map["index" := [Int(0)], "time_start" := [Num(2.0)], "time_stop" := [Num(stop)],
        TimeDuration := [Num(stop - 2.0)], "interstim" := [Num(2.0)]]
  }

  function ExampleSubs(first: real, second: real): seq<Experiment>
  {
    [ExampleSub(first), ExampleSub(second)]
  }

  lemma {:induction false} ExampleSubShape(stop: real)
    ensures ExampleSub(stop).Keys == {"index", "time_start", "time_stop", TimeDuration, "interstim"}
    ensures forall k :: k in ExampleSub(stop) ==> |ExampleSub(stop)[k]| == 1
    ensures EpisodeTimed(ExampleSub(stop), 0)
    ensures ExampleSub(stop)["index"] == [Int(0)]
    ensures ExampleSub(stop)["interstim"] == [Num(2.0)]
    ensures ExampleSub(stop)[TimeDuration] == [Num(stop - 2.0)]
    ensures Duration(ExampleSub(stop), 0) == stop - 2.0
  {
  }

  lemma {:induction false} ExampleTimed(first: real, second: real)
    ensures TimedSubs(ExampleSubs(first, second))
  {
    ExampleSubShape(first);
    ExampleSubShape(second);
  }

  lemma {:induction false} ExampleRefs(first: real, second: real)
    ensures Indexed(ExampleSubs(first, second))
    ensures Refs(ExampleSubs(first, second)) == [(0, 0), (1, 0)]
  {
    ExampleSubShape(first);
    ExampleSubShape(second);
    TwoSingleRefs(ExampleSubs(first, second));
  }

  /** Two sub-schedules of one episode each give the references (0, 0) and (1, 0). */
  lemma {:induction false} TwoSingleRefs(u: seq<Experiment>)
    requires |u| == 2 && Indexed(u) && |u[0]["index"]| == 1 && |u[1]["index"]| == 1
    ensures Refs(u) == [(0, 0), (1, 0)]
  {
    assert u[..1] == [u[0]] && u[..2] == u;
    assert [u[0]][..0] == [];
    assert Refs([u[0]]) == [(0, 0)];
  }

  lemma {:induction false} ExampleKeys(first: real, second: real)
    ensures TimeDuration in AllKeys(ExampleSubs(first, second)) && "interstim" in AllKeys(ExampleSubs(first, second))
  {
    var u := ExampleSubs(first, second);
    ExampleSubShape(first);
    assert u[..1] == [u[0]];
    assert [u[0]][..0] == [];
    assert AllKeys([u[0]]) == u[0].Keys;
  }

  lemma {:induction false} ExampleInterstims(first: real, second: real, asWritten: bool)
    ensures TimedSubs(ExampleSubs(first, second)) && ValidRefs(ExampleSubs(first, second), Refs(ExampleSubs(first, second)))
    ensures |Refs(ExampleSubs(first, second))| == 2
    ensures |FlatColumn(ExampleSubs(first, second), Refs(ExampleSubs(first, second)), "interstim", asWritten)| == 2
    ensures FlatColumn(ExampleSubs(first, second), Refs(ExampleSubs(first, second)), "interstim", asWritten)[0] == Num(2.0)
  {
    var u := ExampleSubs(first, second);
    ExampleTimed(first, second);
    ExampleRefs(first, second);
    ExampleSubShape(first);
    CopiedOnce(u, "interstim", asWritten);
    FlatSingle(u, Refs(u), "interstim", asWritten);
  }

  lemma {:induction false} ExampleDurationsAsWritten(first: real, second: real)
    ensures TimedSubs(ExampleSubs(first, second)) && ValidRefs(ExampleSubs(first, second), Refs(ExampleSubs(first, second)))
    ensures |Refs(ExampleSubs(first, second))| == 2
    ensures |FlatColumn(ExampleSubs(first, second), Refs(ExampleSubs(first, second)), TimeDuration, true)| == 4
    ensures FlatColumn(ExampleSubs(first, second), Refs(ExampleSubs(first, second)), TimeDuration, true)[..2] ==
      [Num(first - 2.0), Num(first - 2.0)]
  {
    var u := ExampleSubs(first, second);
    ExampleTimed(first, second);
    ExampleRefs(first, second);
    ExampleSubShape(first);
    FlatDurationsAsWritten(u);
    var flat := FlatColumn(u, Refs(u), TimeDuration, true);
    assert flat[0] == DurationPairs(u)[0].0 && flat[1] == DurationPairs(u)[0].1;
  }

  lemma {:induction false} ExampleDurations(first: real, second: real)
    ensures TimedSubs(ExampleSubs(first, second)) && ValidRefs(ExampleSubs(first, second), Refs(ExampleSubs(first, second)))
    ensures |Refs(ExampleSubs(first, second))| == 2
    ensures FlatColumn(ExampleSubs(first, second), Refs(ExampleSubs(first, second)), TimeDuration, false) ==
      [Num(first - 2.0), Num(second - 2.0)]
  {
    var u := ExampleSubs(first, second);
    ExampleTimed(first, second);
    ExampleRefs(first, second);
    ExampleSubShape(first);
    ExampleSubShape(second);
    TimedOnce(u);
    FlatSingle(u, Refs(u), TimeDuration, false);
    var flat := FlatColumn(u, Refs(u), TimeDuration, false);
    assert flat[0] == Num(Duration(u[0], 0)) && flat[1] == Num(Duration(u[1], 0));
  }

  /** A two-episode selection with durations d0 and d1, the first followed by a 2 s interstim. */
  predicate TwoEpisodes(sel: Experiment, d0: real, d1: real)
  {
    RetimeReady(sel, 2) && sel[TimeDuration] == [Num(d0), Num(d1)] && sel["interstim"][0] == Num(2.0)
  }

  lemma {:induction false} ExampleSelected(first: real, second: real, asWritten: bool) returns (sel: Experiment)
    ensures TimedSubs(ExampleSubs(first, second))
    ensures TimeDuration in AllKeys(ExampleSubs(first, second)) && "interstim" in AllKeys(ExampleSubs(first, second))
    ensures TwoEpisodes(sel, first - 2.0, if asWritten then first - 2.0 else second - 2.0)
    ensures Arrange(ExampleSubs(first, second), "", [], 2.0, asWritten) ==
      if RetimeNumeric(sel, 2) then Success(Retimed(sel, 2, 2.0)) else Failure(NonNumericValue)
  {
    var u := ExampleSubs(first, second);
    ExampleKeys(first, second);
    ExampleInterstims(first, second, asWritten);
    if asWritten {
      ExampleDurationsAsWritten(first, second);
      assert FlatColumn(u, Refs(u), TimeDuration, true)[1] == Num(first - 2.0);
    } else {
      ExampleDurations(first, second);
    }
    ColumnsAtLeast(u, asWritten);
    var flat := FlatOver(u, Refs(u), asWritten);
    assert flat[TimeDuration] == FlatColumn(u, Refs(u), TimeDuration, asWritten);
    assert flat["interstim"] == FlatColumn(u, Refs(u), "interstim", asWritten);
    sel := SelectAll(flat, Order(2, "", []), 2);
    TwoSelected(flat, Order(2, "", []), first - 2.0, if asWritten then first - 2.0 else second - 2.0);
  }

  /** Keeping the order of a two-episode concatenation keeps its cells. */
  lemma {:induction false} TwoSelected(flat: Experiment, order: seq<nat>, d0: real, d1: real)
    requires order == Range(2)
    requires forall k :: k in flat ==> |flat[k]| >= 2
    requires TimeDuration in flat && "interstim" in flat
    requires flat[TimeDuration][0] == Num(d0) && flat[TimeDuration][1] == Num(d1) && flat["interstim"][0] == Num(2.0)
    ensures TwoEpisodes(SelectAll(flat, order, 2), d0, d1)
  {
    var sel := SelectAll(flat, order, 2);
    assert sel[TimeDuration] == Select(flat[TimeDuration], order);
    assert sel["interstim"] == Select(flat["interstim"], order);
  }

  /** The time_duration and time_stop columns of a successful arrangement that has both. */
  function DurationsAndStops(c: Result<Experiment>): Option<(seq<Value>, seq<Value>)>
  {
    if c.Success? && TimeDuration in c.value && "time_stop" in c.value
    then Some((c.value[TimeDuration], c.value["time_stop"]))
    else None
  }

  /** The rebuilt axis of a two-episode selection that starts at 2 s. */
  lemma {:induction false} TwoEpisodeAxis(sel: Experiment, d0: real, d1: real, s0: real, s1: real)
    requires TwoEpisodes(sel, d0, d1)
    requires s0 == 2.0 + d0 && s1 == 4.0 + d0 + d1
    ensures RetimeNumeric(sel, 2)
    ensures DurationsAndStops(Success(Retimed(sel, 2, 2.0))) == Some(([Num(d0), Num(d1)], [Num(s0), Num(s1)]))
  {
    var td := Reals(sel[TimeDuration]);
    var isi := Reals(sel["interstim"]);
    TwoEpisodeStops(2.0, td, isi);
    assert td[0] == d0 && td[1] == d1 && isi[0] == 2.0;
    var stops := Nums(Stops(2.0, td, isi));
    assert stops[0] == Num(s0) && stops[1] == Num(s1);
    assert stops == [Num(s0), Num(s1)];
    var c := Retimed(sel, 2, 2.0);
    assert c[TimeDuration] == sel[TimeDuration] && c["time_stop"] == stops;
  }

  /** A composition that retimes a two-episode selection has those durations and stops. */
  lemma {:induction false} ArrangedTwo(c: Result<Experiment>, sel: Experiment, d0: real, d1: real, s0: real, s1: real)
    requires TwoEpisodes(sel, d0, d1)
    requires c == if RetimeNumeric(sel, 2) then Success(Retimed(sel, 2, 2.0)) else Failure(NonNumericValue)
    requires s0 == 2.0 + d0 && s1 == 4.0 + d0 + d1
    ensures DurationsAndStops(c) == Some(([Num(d0), Num(d1)], [Num(s0), Num(s1)]))
  {
    TwoEpisodeAxis(sel, d0, d1, s0, s1);
  }

  /** The rebuilt stops of a two-episode axis. */
  lemma {:induction false} TwoEpisodeStops(prestim: real, td: seq<real>, isi: seq<real>)
    requires |td| == |isi| == 2
    ensures Stops(prestim, td, isi) == [prestim + td[0], prestim + td[0] + isi[0] + td[1]]
  {
    assert StartAt(prestim, td, isi, 1) == prestim + td[0] + isi[0];
  }

  /**
   * The composer as written gives the second episode the first one's
   * duration: with stops at 7 s and 5 s its time_duration column reads
   * [5, 5] and the second episode stops at 14 s, although its own
   * sub-protocol episode lasts 3 s.
   */
  lemma {:induction false} DurationCopiedTwiceExample(first: real, second: real)
    ensures TimedSubs(ExampleSubs(first, second))
    ensures TimeDuration in AllKeys(ExampleSubs(first, second)) && "interstim" in AllKeys(ExampleSubs(first, second))
    ensures Duration(ExampleSubs(first, second)[1], 0) == second - 2.0
    ensures DurationsAndStops(Arrange(ExampleSubs(first, second), "", [], 2.0, true)) ==
      Some(([Num(first - 2.0), Num(first - 2.0)], [Num(first), Num(2.0 * first)]))
  {
    ExampleSubShape(second);
    var sel := ExampleSelected(first, second, true);
    ArrangedTwo(Arrange(ExampleSubs(first, second), "", [], 2.0, true), sel,
      first - 2.0, first - 2.0, first, 2.0 * first);
  }

  /** Unless both sub-protocols last alike, the second composed episode does not keep its own duration. */
  lemma {:induction false} DurationCopiedTwiceDiffers(first: real, second: real)
    requires first != second
    ensures TimedSubs(ExampleSubs(first, second)) && TimeDuration in AllKeys(ExampleSubs(first, second))
    ensures "interstim" in AllKeys(ExampleSubs(first, second))
    ensures Arrange(ExampleSubs(first, second), "", [], 2.0, true).Success?
    ensures TimeDuration in Arrange(ExampleSubs(first, second), "", [], 2.0, true).value
    ensures |Arrange(ExampleSubs(first, second), "", [], 2.0, true).value[TimeDuration]| == 2
    ensures Arrange(ExampleSubs(first, second), "", [], 2.0, true).value[TimeDuration][1] != Num(Duration(ExampleSubs(first, second)[1], 0))
  {
    DurationCopiedTwiceExample(first, second);
    assert Num(first - 2.0) != Num(second - 2.0);
  }

  /** The corrected composer on the same sub-protocols: the second episode keeps its own duration. */
  lemma {:induction false} DurationOncePerEpisodeExample(first: real, second: real)
    ensures TimedSubs(ExampleSubs(first, second)) && "interstim" in AllKeys(ExampleSubs(first, second))
    ensures DurationsAndStops(Arrange(ExampleSubs(first, second), "", [], 2.0, false)) ==
      Some(([Num(first - 2.0), Num(second - 2.0)], [Num(first), Num(first + second)]))
  {
    var sel := ExampleSelected(first, second, false);
    ArrangedTwo(Arrange(ExampleSubs(first, second), "", [], 2.0, false), sel,
      first - 2.0, second - 2.0, first, first + second);
  }

  // ---------------------------------------------------------------------
  // Dispatch of an episode to its sub-protocol (lines 607-612)
  // ---------------------------------------------------------------------

  /**
   * The sub-protocol that renders composite episode j, among n built ones.
   * The code guards neither j nor the stored id.  Its callers pass episode
   * indices 0, 1, ..., and the composer writes only ids 0..n-1, so a
   * negative j or id, which Python would read from the end, never arises
   * and is not modelled; the failures are those of an index past the end.
   */
  function SubProtocolOf(c: Experiment, j: nat, n: nat): (r: Result<nat>)
    ensures r.Success? <==>
      ProtocolId in c && j < |c[ProtocolId]| && c[ProtocolId][j].Int? && 0 <= c[ProtocolId][j].i < n
    ensures r.Success? ==> r.value as int == c[ProtocolId][j].i
  {
    if ProtocolId !in c then Failure(MissingColumn)
    else if j >= |c[ProtocolId]| then Failure(IndexOutOfRange)
    else match c[ProtocolId][j]
      case Int(s) => if 0 <= s < n then Success(s as nat) else Failure(IndexOutOfRange)
      case _ => Failure(NonNumericValue)
  }

  /** Every composite episode is rendered by the sub-protocol it was taken from. */
  lemma {:induction false} DispatchToOwnSub(u: seq<Experiment>, shuffling: string, perm: seq<nat>, prestim: real, asWritten: bool, j: nat)
    requires TimedSubs(u) && TimeDuration in CompositeKeys(u, asWritten) && "interstim" in AllKeys(u)
    requires shuffling == "full" ==> IsPermutation(perm, |Refs(u)|)
    requires Arrange(u, shuffling, perm, prestim, asWritten).Success?
    requires asWritten ==> forall s :: 0 <= s < |u| ==> ProtocolId !in u[s]
    requires j < |Refs(u)|
    ensures SubProtocolOf(Arrange(u, shuffling, perm, prestim, asWritten).value, j, |u|) ==
      Success(Shown(u, shuffling, perm, j).0)
  {
    ComposedProtocolId(u, shuffling, perm, prestim, asWritten, j);
  }
}
