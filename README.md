# physion stimulus scheduling, presentation and analysis — a Dafny model

This project models the core of physion, a toolkit for visual-stimulation
experiments in neuroscience:

- **Stimulus schedules** (`physion/visual_stim/psychopy_code/stimuli.py`).
  A protocol dictionary becomes an *experiment*: a table of columns, one
  per episode parameter (`index`, `repeat`, `time_start`, `time_stop`,
  `time_duration`, `interstim`, the varied factors, ...). The model
  covers:
  - `build_stim`, which picks the stimulus class;
  - `init_experiment`, in both Single-Stimulus mode and factorial
    sequence mode;
  - the hard-coded oddball sequence and its `linear_prob`;
  - the sparse and dense noise schedules;
  - the multiprotocol composer: sub-protocol loading, concatenation,
    shuffling, rebuilding the time axis, and dispatching an episode to
    its sub-protocol;
  - the frame tables of the Gaussian-blob and visual-scene-exploration
    stimuli, `get_seed`, and `compute_shifted_image`.
- **Presentation.** `run` and its helpers: the start, inter-stimulus and
  end screens, `stop_signal`, the four frame loops, and the monitoring
  square's pulse logic (`add_monitoring_signal` and its single-pulse and
  inline variants). They are modelled as a `Driver` class whose methods
  append abstract events to a log.
- **Orientation/direction selectivity analysis**
  (`physion/analysis/orientation_direction_selectivity.py`):
  - repeated-trial counting;
  - integral responses;
  - `responsiveness`;
  - `orientation_selectivity_index`.
- **Significance labels** (`physion/analysis/stat_tools.py`):
  `pval_to_star`.
- **Pupil tracking** (`physion/pupil/process.py`):
  - the frames `perform_loop` visits, and the record it assembles;
  - the thresholding of `preprocess`;
  - the binarisation of `perform_fit`;
  - `clip_to_finite_values`.

An experiment is a `map<string, seq<Value>>`. `Value` is a Python scalar
(`Int`, `Num` for a real, `Text`, `Bool`, `Null`). Most builders are also
stated on typed column functions, so lemmas can speak about whole columns.
The source's error paths become `Result` failures. They cover:
- a missing dictionary key (`KeyError`) where `build_stim`,
  `init_experiment` and the composer read the protocol;
- a value of the wrong type where these read it;
- an index past the end (`IndexError`) and a negative array size;
- a modulo by zero;
- the reduction of an empty array, and NaN (an empty mean).

Code that changes state step by step is modelled with methods and loops.
Each method is proved against a specification function. This applies to:
- the in-place array writes: the oddball angle column, the blob and
  scene-exploration tables, the pupil image thresholding, and the
  rebuilt multiprotocol time axis;
- the driver's log;
- the pupil tracker's current frame.

Modules, one per file:
- `wrappers.dfy` (`Option`, `Result`), `values.dfy` and `strings.dfy`:
  shared helpers.
- `dispatch.dfy`: `build_stim`.
- `factorial.dfy`: the sequence-mode builder.
- `experiments.dfy`: `init_experiment`.
- `schedules.dfy`: oddball and noise schedules.
- `protocol_keys.dfy`: sub-protocol key storage.
- `multiprotocol.dfy`: the composer.
- `frames.dfy`: frame tables and seeds.
- `shift.dfy`: `compute_shifted_image`.
- `pulse.dfy`: the monitoring square.
- `presentation.dfy`: `run`.
- `selectivity.dfy`, `stattools.dfy` and `pupil.dfy`: the analysis files.

## Model

| member | source | states |
|---|---|---|
| Dispatch.BuildStim | physion/visual_stim/psychopy_code/stimuli.py:16-62 | build_stim fails (KeyError) exactly when 'Presentation' is missing, or is not 'multiprotocol' and 'Stimulus' is missing |
| Dispatch.StimulusClass | physion/visual_stim/psychopy_code/stimuli.py:24-62 | the elif chain only returns a class whose name is the Stimulus value, and never the multiprotocol class |
| Dispatch.NameRoundTrip | physion/visual_stim/psychopy_code/stimuli.py:24-59 | every single-family class name is recognised and selects its own class: the names are distinct and none is shadowed by an earlier test |
| Dispatch.NamesDistinct | physion/visual_stim/psychopy_code/stimuli.py:24-59 | no two stimulus classes share a name |
| Dispatch.UnknownStimulus | physion/visual_stim/psychopy_code/stimuli.py:60-62 | None is returned for a Stimulus value exactly when it names no class |
| Dispatch.MultiprotocolWins | physion/visual_stim/psychopy_code/stimuli.py:22-23 | a 'multiprotocol' presentation builds the composer whatever the Stimulus key holds, or if it is absent |
| Dispatch.SingleFamilyDispatch | physion/visual_stim/psychopy_code/stimuli.py:48-57 | a named class is built, except that a noise family outside Single-Stimulus mode yields None (both directions) |
| Dispatch.DispatchSound | physion/visual_stim/psychopy_code/stimuli.py:16-62 | every class built is the one its keys name, and a noise class comes only from a Single-Stimulus presentation |
| Experiments.MatchedFactors | physion/visual_stim/psychopy_code/stimuli.py:205-207 | the keys whose name before ' (' is a factor each store one value; the map is empty exactly when no key names a factor |
| Experiments.SingleStimulusSchedule | physion/visual_stim/psychopy_code/stimuli.py:204-215 | the key loop builds exactly the schedule SingleSchedule describes |
| Experiments.SingleScheduleStep | physion/visual_stim/psychopy_code/stimuli.py:206-215 | one turn of the key loop stores the factor's value and rewrites the one-episode columns, or changes nothing for a non-factor key |
| Experiments.SingleStimulusOneEpisode | physion/visual_stim/psychopy_code/stimuli.py:204-215 | Single-Stimulus mode gives no column when no key names a factor; otherwise one episode, index 0, from prestim to prestim + duration, with each factor's value |
| Experiments.FactorSchedule | physion/visual_stim/psychopy_code/stimuli.py:245-246 | the factor columns are exactly one column per factor key, holding that factor's values |
| Experiments.ReservedSchedule | physion/visual_stim/psychopy_code/stimuli.py:228-231 | the bookkeeping columns are exactly the reserved keys, holding the index, repeat and time columns |
| Experiments.SequenceSchedule | physion/visual_stim/psychopy_code/stimuli.py:217-256 | the sequence-mode dictionary has exactly the factor keys and the reserved keys, each holding its column |
| Experiments.Lookup | physion/visual_stim/psychopy_code/stimuli.py:204-253 | protocol[key] finds a value exactly when some entry has that key, and the value found is the one stored under it |
| Experiments.ReadNumber | physion/visual_stim/psychopy_code/stimuli.py:219-223 | a numeric read raises KeyError exactly when the key is absent; a success is the number the key holds |
| Experiments.ReadRange | physion/visual_stim/psychopy_code/stimuli.py:219-223 | a factor's read raises KeyError exactly when 'N-F' is absent, or 'N-F' is a number and 'F-2' is absent, or N-F > 1 and 'F-1' is absent; a success holds the VECS entry: linspace(F-1, F-2, N-F) for an integer N-F > 1, else [F-2] |
| Experiments.ReadRanges | physion/visual_stim/psychopy_code/stimuli.py:218-223 | the factor loop succeeds exactly when every factor's read does, with one range per factor in key order |
| Experiments.FirstRangeFailure | physion/visual_stim/psychopy_code/stimuli.py:218-223 | the factors are read in key order: the first factor whose read fails decides the error |
| Experiments.RangesFailure | physion/visual_stim/psychopy_code/stimuli.py:218-223 | a failing factor loop fails with the error of some factor's own read |
| Experiments.AsInt | physion/visual_stim/psychopy_code/stimuli.py:244 | an int is read as itself; a float or a text cannot be a slice bound |
| Experiments.RepeatCount | physion/visual_stim/psychopy_code/stimuli.py:240-242 | max([1, N-repeat]) yields more than one repeat exactly when N-repeat is above 1, and only for an int; an int is read as itself |
| Experiments.ResumeAt | physion/visual_stim/psychopy_code/stimuli.py:244-248 | for starting-index s the loop resumes at Python's slice start of index[s:], and every repeat[n + s] reads that same tiled entry, negative positions counting from the end; it fails (IndexError) exactly when s < -total |
| Experiments.ReadTiming | physion/visual_stim/psychopy_code/stimuli.py:249-256 | the timing read raises KeyError exactly when one of the four timing keys is absent; a success holds the four numbers |
| Experiments.TiledTotal | physion/visual_stim/psychopy_code/stimuli.py:240-242 | the tiled entries number Nrepeats * K, at least one |
| Experiments.WithTiming | physion/visual_stim/psychopy_code/stimuli.py:249-256 | the timing fields become the numbers the timing keys hold, nothing else changes, and a failing timing read is passed on |
| Experiments.ReadResume | physion/visual_stim/psychopy_code/stimuli.py:240-256 | a successful read found 'N-repeat' and 'starting-index', resumes at the slice start, never below -total, and read the timing keys whenever the loop runs |
| Experiments.ReadProtocol | physion/visual_stim/psychopy_code/stimuli.py:204 | a missing 'Presentation' is a KeyError; a success keeps the protocol's entries and its Presentation text |
| Experiments.TimingRead | physion/visual_stim/psychopy_code/stimuli.py:204-256 | whenever an episode is written, in either mode, the timing fields handed on are the protocol's timing values |
| Experiments.SequenceRead | physion/visual_stim/psychopy_code/stimuli.py:217-239 | a successful sequence read has a factor list, read every factor, found 'shuffling-seed' under Randomized-Sequence, and then equals ReadResume |
| Experiments.StartingIndexResume | physion/visual_stim/psychopy_code/stimuli.py:244-248 | the sequence branch resumes at Python's slice start for the protocol's starting-index, negative values counting from the end and never below -total |
| Experiments.InitExperiment | physion/visual_stim/psychopy_code/stimuli.py:200-256 | init_experiment returns exactly Initialised: the protocol reads in the code's order, then the branch 'Presentation' selects |
| Experiments.InitReadsPresent | physion/visual_stim/psychopy_code/stimuli.py:204-253 | when init_experiment returns a schedule, every key it read was present: 'Presentation'; outside Single-Stimulus the keys of every factor, 'N-repeat', 'starting-index', and 'shuffling-seed' under Randomized-Sequence; every timing key once the schedule has an episode |
| Experiments.EpisodeReadsTiming | physion/visual_stim/psychopy_code/stimuli.py:209-256 | a schedule with an episode carries the protocol's timing values |
| Experiments.TypedFailure | physion/visual_stim/psychopy_code/stimuli.py:204-253 | for a protocol whose values have their types, a failure is either a KeyError with one of the keys read absent, or the empty factor list |
| Experiments.TypedResume | physion/visual_stim/psychopy_code/stimuli.py:240-253 | with typed values, the resume read fails only with a KeyError for 'N-repeat', 'starting-index' or a timing key |
| Experiments.TypedRange | physion/visual_stim/psychopy_code/stimuli.py:219-223 | a typed factor's read fails only with a KeyError for one of its keys |
| Experiments.TypedTiming | physion/visual_stim/psychopy_code/stimuli.py:249-256 | typed timing keys fail only with a KeyError |
| Experiments.DefaultDriftingGrating | visual_stim/default_params.py:91-100 | with the default presentation the drifting grating has 10 combinations and 20 episodes; episode n shows combination n mod 10 in repeat n div 10, from 2 + 7n s for 5 s |
| Factorial.Linspace | physion/visual_stim/psychopy_code/stimuli.py:221 | np.linspace(lo, hi, n) has n entries and runs from lo to hi |
| Factorial.LinspaceSteps | physion/visual_stim/psychopy_code/stimuli.py:221 | consecutive linspace entries lie (hi - lo)/(n - 1) apart |
| Factorial.FactorValues | physion/visual_stim/psychopy_code/stimuli.py:220-223 | a factor sweeps N values from its '-1' to its '-2' bound when N > 1, else holds only its '-2' value |
| Factorial.Vecs | physion/visual_stim/psychopy_code/stimuli.py:218-223 | VECS holds one value list per factor, in key order |
| Factorial.ProductLength | physion/visual_stim/psychopy_code/stimuli.py:224-226 | itertools.product yields one combination per mixed-radix number below the product of the list sizes |
| Factorial.ProductAt | physion/visual_stim/psychopy_code/stimuli.py:224-226 | combination k takes from factor j the value at mixed-radix digit j of k, the first factor varying slowest |
| Factorial.Digits | physion/visual_stim/psychopy_code/stimuli.py:224-226 | each mixed-radix digit of a combination is a valid position in its factor's value list |
| Factorial.NoRepeatCount | physion/visual_stim/psychopy_code/stimuli.py:233 | the no-repeat index set is never empty: every factor holds at least one value |
| Factorial.TiledAt | physion/visual_stim/psychopy_code/stimuli.py:240-242 | tiled entry x is order entry x mod K, and its repeat tag is x div K |
| Factorial.Repeats | physion/visual_stim/psychopy_code/stimuli.py:240 | max([1, N-repeat]) is at least 1, and is N-repeat when N-repeat >= 1 |
| Factorial.EpisodeCount | physion/visual_stim/psychopy_code/stimuli.py:244 | slicing at starting-index leaves max(0, repeats * K - starting-index) episodes |
| Factorial.OrderFacts | physion/visual_stim/psychopy_code/stimuli.py:233-238 | the (possibly shuffled) no-repeat order has K entries, each below K |
| Factorial.SequenceShape | physion/visual_stim/psychopy_code/stimuli.py:244-256 | every column has the episode count's length; every index is a combination and every repeat a copy number |
| Factorial.SequenceCopies | physion/visual_stim/psychopy_code/stimuli.py:240-248 | with starting-index 0, copy r lists the no-repeat order once: episode r*K + m shows order[m], tagged r |
| Factorial.SequenceTimes | physion/visual_stim/psychopy_code/stimuli.py:249-256 | episode n starts at prestim + n(duration + interstim) and lasts the duration; the next starts one interstim after it stops |
| Factorial.ColumnsContiguous | physion/visual_stim/psychopy_code/stimuli.py:249-252 | each time_start is the previous time_stop plus the interstim period |
| Factorial.ResumeIsSuffix | physion/visual_stim/psychopy_code/stimuli.py:244-248 | resuming at starting-index s replays the tail of the full schedule; the time axis restarts at prestim |
| Factorial.SameCombination | physion/visual_stim/psychopy_code/stimuli.py:245-246 | two episodes showing the same combination show the same factor values |
| Factorial.ValueLists | physion/visual_stim/psychopy_code/stimuli.py:218-223 | the VECS loop builds exactly the value lists Vecs describes |
| Factorial.ProductColumns | physion/visual_stim/psychopy_code/stimuli.py:224-226 | the FULL_VECS loop stores the product column by column: column j lists factor j's value in every combination |
| Factorial.EpisodeLoop | physion/visual_stim/psychopy_code/stimuli.py:244-256 | the episode loop fills every column from the tiled index, starting at starting-index |
| Factorial.BuildSequence | physion/visual_stim/psychopy_code/stimuli.py:217-256 | sequence mode as a whole builds exactly the schedule SequenceSpec describes |
| ProtocolKeys.Name | physion/visual_stim/psychopy_code/stimuli.py:549 | 'Protocol-%i' begins with the prefix 'Protocol-' |
| ProtocolKeys.Tag | physion/visual_stim/psychopy_code/stimuli.py:554 | 'Protocol-%i-' begins with the prefix and ends with '-' |
| ProtocolKeys.CountSubProtocols | physion/visual_stim/psychopy_code/stimuli.py:549 | the while loop counts sub-protocols 1..n, all present, and stops at the first missing 'Protocol-(n+1)' |
| ProtocolKeys.LoadSubProtocol | physion/visual_stim/psychopy_code/stimuli.py:550-555 | the key loop builds the sub-protocol Decode describes: the base keys, overridden by every key tagged with i, tag removed, a later key winning |
| ProtocolKeys.LoadFromProtocolData | physion/visual_stim/psychopy_code/stimuli.py:548-557 | load_from_protocol_data reads sub-protocols 1.. up to the first missing name, each decoded from its own tagged keys |
| ProtocolKeys.StoreSubProtocol | physion/visual_stim/psychopy_code/stimuli.py:568-569 | for any protocol and any sub-protocol, nested multiprotocols included, the file mode performs protocol['Protocol-i-k'] = v for every key k of sub-protocol i in order; when the sub-protocol's keys are distinct and the protocol holds no key with the tag of i, that is appending every tagged key at the end |
| ProtocolKeys.Put | physion/visual_stim/psychopy_code/stimuli.py:569 | dict assignment on an insertion-ordered dict: the keys become the old keys plus the assigned one; a new key goes at the end; a key already present takes the new value where it stands, every other entry unchanged |
| ProtocolKeys.PutAll | physion/visual_stim/psychopy_code/stimuli.py:568-569 | a run of assignments leaves the protocol's keys plus the assigned keys, whatever was there before |
| ProtocolKeys.PutAllSnoc | physion/visual_stim/psychopy_code/stimuli.py:568-569 | the assignments are performed one after another, the last one last |
| ProtocolKeys.PutAllFresh | physion/visual_stim/psychopy_code/stimuli.py:568-569 | assigning distinct keys none of which is present appends them in order |
| ProtocolKeys.FreshTags | physion/visual_stim/psychopy_code/stimuli.py:568-569 | distinct sub-protocol keys tagged with i are distinct, and new to a protocol that holds no key with the tag of i, so storing them appends |
| ProtocolKeys.StoreThenLoad | physion/visual_stim/psychopy_code/stimuli.py:548-569 | round trip: storing sub-protocol i then loading it back gives the base keys overridden by the original sub-protocol |
| ProtocolKeys.OnlyOwnKeysDecode | physion/visual_stim/psychopy_code/stimuli.py:553-554 | keys of other sub-protocols, 'Protocol-j' names and plain keys never leak into sub-protocol i |
| ProtocolKeys.StripTag | physion/visual_stim/psychopy_code/stimuli.py:554 | key.replace of the tag on a stored key gives back the sub-protocol's own key |
| ProtocolKeys.OtherTagAbsent | physion/visual_stim/psychopy_code/stimuli.py:553 | a key stored for sub-protocol j contains the tag of i only when j == i |
| ProtocolKeys.NameHoldsNoTag | physion/visual_stim/psychopy_code/stimuli.py:553 | a name key 'Protocol-j' never contains a tag |
| ProtocolKeys.NamesBelowSize | physion/visual_stim/psychopy_code/stimuli.py:549 | the names 'Protocol-1'..'Protocol-(n-1)' are n - 1 distinct keys |
| Multiprotocol.AllKeysMember | physion/visual_stim/psychopy_code/stimuli.py:574-576 | a key is opened exactly when some sub-schedule has it |
| Multiprotocol.OpenKeys | physion/visual_stim/psychopy_code/stimuli.py:573-576 | the key initialisation opens an empty column for protocol_id and for every key of every sub-schedule |
| Multiprotocol.AppendSub | physion/visual_stim/psychopy_code/stimuli.py:579-588 | appending the episodes of sub-schedule s extends every column by their contributions, in order |
| Multiprotocol.Concatenate | physion/visual_stim/psychopy_code/stimuli.py:578-588 | the append loops build exactly the flattened columns FlatOver describes |
| Multiprotocol.Refs | physion/visual_stim/psychopy_code/stimuli.py:578-579 | the concatenation visits pairs (sub-schedule, episode), each naming an existing episode |
| Multiprotocol.RefsOrdered | physion/visual_stim/psychopy_code/stimuli.py:578-579 | episodes are visited sub-schedule by sub-schedule, each in its own order |
| Multiprotocol.RefsComplete | physion/visual_stim/psychopy_code/stimuli.py:578-579 | every episode of every sub-schedule is visited |
| Multiprotocol.KeyUpdate | physion/visual_stim/psychopy_code/stimuli.py:580-588 | one episode extends a column by its own value, 0 for interstim-screen, None otherwise, plus the protocol_id and time_duration appends |
| Multiprotocol.ColumnStep | physion/visual_stim/psychopy_code/stimuli.py:580-588 | a column after one more episode is the column before, followed by that episode's contribution |
| Multiprotocol.EpisodeUpdate | physion/visual_stim/psychopy_code/stimuli.py:580-588 | one pass of the key loop extends every flattened column at once |
| Multiprotocol.ColumnsAtLeast | physion/visual_stim/psychopy_code/stimuli.py:578-588 | every flattened column holds at least one entry per episode |
| Multiprotocol.Order | physion/visual_stim/psychopy_code/stimuli.py:591-596 | the episode order has one in-range entry per episode: the drawn permutation when shuffling is 'full' |
| Multiprotocol.Select | physion/visual_stim/psychopy_code/stimuli.py:596 | fancy indexing: entry j of a reindexed column is the column's entry at order[j] |
| Multiprotocol.RebuildTimes | physion/visual_stim/psychopy_code/stimuli.py:599-604 | the in-place time rebuild leaves the start and stop arrays equal to the Starts and Stops axes |
| Multiprotocol.RebuiltContiguous | physion/visual_stim/psychopy_code/stimuli.py:599-604 | the rebuilt axis opens at prestim; each stop is its start plus the duration; each start is the previous stop plus its interstim |
| Multiprotocol.StartClosedForm | physion/visual_stim/psychopy_code/stimuli.py:599-604 | start i is prestim plus the first i durations and the first i interstims |
| Multiprotocol.StartsNondecreasing | physion/visual_stim/psychopy_code/stimuli.py:602-604 | with non-negative durations and interstims, the rebuilt starts never decrease |
| Multiprotocol.ComposerKeys | physion/visual_stim/psychopy_code/stimuli.py:592-599 | a successful read found 'shuffling' and the prestim period, and the prestim period is a number |
| Multiprotocol.ComposedReads | physion/visual_stim/psychopy_code/stimuli.py:571-600 | a failing join raises before any key is read; after a successful join, a KeyError exactly when 'shuffling', the prestim period, or 'shuffling-seed' under full shuffling is absent; with all present and a numeric prestim, the composition of that shuffling and prestim |
| Multiprotocol.ComposedNeverMissingKey | physion/visual_stim/psychopy_code/stimuli.py:571-604 | once the protocol keys are read the composition raises no KeyError |
| Multiprotocol.ComposeTimed | physion/visual_stim/psychopy_code/stimuli.py:571-604 | the loops compute exactly Composed for the shuffling and prestim read |
| Multiprotocol.Compose | physion/visual_stim/psychopy_code/stimuli.py:571-604 | multiprotocol.__init__, once the sub-protocols are built, computes exactly ComposedFrom: the join, then its own keys, then the timed composition |
| Multiprotocol.ComposedSuccess | physion/visual_stim/psychopy_code/stimuli.py:571-604 | when composition succeeds, every sub-protocol was built and timed, and the result is the concatenation arranged in order |
| Multiprotocol.ComposedCell | physion/visual_stim/psychopy_code/stimuli.py:578-596 | composite episode j carries, in every ordinary column, the value the episode it shows has in its own schedule |
| Multiprotocol.ComposedProtocolId | physion/visual_stim/psychopy_code/stimuli.py:587 | the protocol_id of composite episode j is the sub-protocol it was taken from |
| Multiprotocol.Shown | physion/visual_stim/psychopy_code/stimuli.py:591-596 | composite episode j shows an existing episode of an existing sub-protocol |
| Multiprotocol.ComposedDuration | physion/visual_stim/psychopy_code/stimuli.py:588 | corrected: composite episode j's time_duration is the stop - start of the episode it shows |
| Multiprotocol.ComposedDurationAsWritten | physion/visual_stim/psychopy_code/stimuli.py:582-596 | as written, time_duration entry j is taken from the doubled list: one half of a (copied, recomputed) pair picked by the order |
| Multiprotocol.ComposedEpisodeLasts | physion/visual_stim/psychopy_code/stimuli.py:588-604 | corrected: on the rebuilt axis composite episode j lasts exactly its own sub-protocol episode's duration |
| Multiprotocol.RetimedFollows | physion/visual_stim/psychopy_code/stimuli.py:599-604 | the rebuilt columns open at prestim, and each episode follows the previous one by its interstim |
| Multiprotocol.DispatchToOwnSub | physion/visual_stim/psychopy_code/stimuli.py:607-612 | every composite episode is rendered by the sub-protocol it was taken from |
| Multiprotocol.SubProtocolOf | physion/visual_stim/psychopy_code/stimuli.py:607-612 | the dispatch succeeds exactly when protocol_id[j] is an integer naming a built sub-protocol, and returns it |
| Multiprotocol.DurationCopiedTwiceExample | physion/visual_stim/psychopy_code/stimuli.py:582-588 | as written, two one-episode sub-protocols get time_duration [d1, d1], d1 the first one's duration, and the second stops at twice the first stop |
| Multiprotocol.DurationCopiedTwiceDiffers | physion/visual_stim/psychopy_code/stimuli.py:582-588 | as written, the second composed episode does not keep its own duration unless both last alike |
| Multiprotocol.DurationOncePerEpisodeExample | physion/visual_stim/psychopy_code/stimuli.py:588-604 | corrected, the same sub-protocols keep their own durations and stop at first and first + second |
| Schedules.LinearProb | physion/visual_stim/psychopy_code/stimuli.py:682-686 | linear_prob picks the first k with rdm <= cumsum[k]/cumsum[-1] (all earlier k fail), and fails (IndexError) exactly when no k qualifies: m <= 0 or rdm > 1 |
| Schedules.CumClosedForm | physion/visual_stim/psychopy_code/stimuli.py:685 | np.cumsum(np.arange(1, m+1)) holds the triangular numbers (k+1)(k+2)/2 |
| Schedules.LinearBands | physion/visual_stim/psychopy_code/stimuli.py:682-686 | the draws picking offset k form a band of width (k+1)/cumsum[-1]: the probability grows linearly with k |
| Schedules.DeviantOffsets | physion/visual_stim/psychopy_code/stimuli.py:705-707 | each block's deviant offset lies in [Nmin-successive-redundant, N - 1] |
| Schedules.DeviantOffsetsFail | physion/visual_stim/psychopy_code/stimuli.py:705-707 | the offsets fail exactly when some block's draw makes linear_prob raise |
| Schedules.DeviantAngles | physion/visual_stim/psychopy_code/stimuli.py:700-708 | the angle loop leaves the angle array equal to Angles: redundant everywhere except each block's deviant position, or fails as linear_prob does |
| Schedules.OffsetPosition | physion/visual_stim/psychopy_code/stimuli.py:706-707 | position i*N + off lies in block i at offset off |
| Schedules.AngleStep | physion/visual_stim/psychopy_code/stimuli.py:708 | writing block i's deviant changes exactly that position |
| Schedules.BuildOddball | physion/visual_stim/psychopy_code/stimuli.py:689-722 | the oddball constructor builds exactly the OddballSpec schedule: hard-coded columns and the angle column the loop writes |
| Schedules.OneDeviantPerBlock | physion/visual_stim/psychopy_code/stimuli.py:697-708 | every block of N episodes holds one deviant at an allowed offset; every other position holds the redundant angle |
| Schedules.OddballIndexing | physion/visual_stim/psychopy_code/stimuli.py:697-698 | index and repeat decompose the episode number: k = repeat*N + index with index < N |
| Schedules.OddballTimes | physion/visual_stim/psychopy_code/stimuli.py:716-722 | the oddball axis opens at prestim; each stop is its start plus stim-duration; each start follows the previous stop by that episode's interstim |
| Schedules.EmptyOddball | physion/visual_stim/psychopy_code/stimuli.py:718-721 | with no episode, time_start and time_stop still hold the prestim entry |
| Schedules.NoiseSchedule | physion/visual_stim/psychopy_code/stimuli.py:1256-1263 | a noise schedule fails exactly when there is no event (np.zeros(-1) raises) |
| Schedules.NoiseAbuts | physion/visual_stim/psychopy_code/stimuli.py:1260-1263 | consecutive noise episodes abut, each lasting the time between two generator events |
| Schedules.SparseRectangular | physion/visual_stim/psychopy_code/stimuli.py:1256-1263 | the sparse schedule lists the same number of episodes in every column |
| Schedules.DenseIndexMismatch | physion/visual_stim/psychopy_code/stimuli.py:1292-1298 | as written, the dense index has one entry more than the time columns, so the last episode's duration lookup fails |
| Schedules.CorrectedDenseRectangular | physion/visual_stim/psychopy_code/stimuli.py:1291-1298 | corrected, the dense schedule indexes exactly the episodes it has durations for |
| Schedules.EpisodeDuration | physion/visual_stim/psychopy_code/stimuli.py:331 | a loop's duration lookup succeeds exactly when the episode has a time_duration entry |
| Frames.WindowOf | physion/visual_stim/psychopy_code/stimuli.py:1072-1075 | the blob window starts at int((t0 - threshold*sT)*freq), or 0, and ends no later than either bound of itend |
| Frames.WindowFits | physion/visual_stim/psychopy_code/stimuli.py:1072-1075 | with a non-negative interval and rate the window's last write lies inside the table |
| Frames.BlobFrames | physion/visual_stim/psychopy_code/stimuli.py:1077-1086 | FRAMES holds the background, one blob per window step, then the background again |
| Frames.BlobTable | physion/visual_stim/psychopy_code/stimuli.py:1077-1088 | a negative size fails as np.zeros does (ValueError); otherwise the in-place table writes give BlobEntry at every cell, or fail (IndexError) exactly when the window runs past the table |
| Frames.BlobEntryInRange | physion/visual_stim/psychopy_code/stimuli.py:1077-1088 | every table entry names a frame of FRAMES |
| Frames.AsWrittenBlobShown | physion/visual_stim/psychopy_code/stimuli.py:1081-1085 | as written, the first window step shows the background and step k the blob of step k - 1 |
| Frames.LastBlobNeverShown | physion/visual_stim/psychopy_code/stimuli.py:1081-1088 | as written, the blob of the window's last step is never shown |
| Frames.CorrectedBlobShown | physion/visual_stim/psychopy_code/stimuli.py:1077-1088 | corrected, window step k shows blob k, and the background is shown before and after the window |
| Frames.VseTable | physion/visual_stim/psychopy_code/stimuli.py:1222-1227 | a negative size fails as np.zeros does (ValueError); otherwise the table holds, in each cell, the last saccade whose time is at or before the cell's clock time (0 if none) |
| Frames.MarkSaccades | physion/visual_stim/psychopy_code/stimuli.py:1224-1227 | the masked writes times[Times >= t_i] = i leave LastAtOrBefore in each cell |
| Frames.LastAtOrBefore | physion/visual_stim/psychopy_code/stimuli.py:1224-1227 | the last saccade at or before x: no later saccade is at or before x |
| Frames.VseMonotone | physion/visual_stim/psychopy_code/stimuli.py:1221-1227 | with nondecreasing saccade times, a later cell never shows an earlier saccade |
| Frames.VseWindow | physion/visual_stim/psychopy_code/stimuli.py:1221-1227 | with increasing times the cell shows saccade i exactly over [t_i, t_(i+1)) |
| Frames.GetSeed | physion/visual_stim/psychopy_code/stimuli.py:1201-1206 | the seed is int(VSE-seed + 1000*Image-ID) when vary-VSE-with-Image is 1, else int(VSE-seed) |
| Frames.SeedsDistinct | physion/visual_stim/psychopy_code/stimuli.py:1201-1206 | integral seeds below 1000 give every (seed, image) pair its own seed |
| Shift.ComputeShiftedImage | physion/visual_stim/psychopy_code/stimuli.py:1184-1198 | each output pixel is the input pixel at Source: the four block copies as written |
| Shift.ShiftIsRollIff | physion/visual_stim/psychopy_code/stimuli.py:1194-1197 | the block copies equal a circular roll exactly when one shift is 0 or both are whole (both directions) |
| Shift.DiagonalShiftExample | physion/visual_stim/psychopy_code/stimuli.py:1194-1197 | on a 2x2 image shifted by (1, 1), pixel (0, 1) comes from (1, 1) where a roll takes it from (1, 0) |
| Shift.RollImage | physion/visual_stim/psychopy_code/stimuli.py:1184-1198 | corrected: each output pixel is the input pixel at the circularly rolled position |
| Shift.RollRoundTrip | physion/visual_stim/psychopy_code/stimuli.py:1184-1198 | rolling by (ix, iy) and then by (sx - ix, sy - iy) gives back every pixel |
| Shift.Rolled | physion/visual_stim/psychopy_code/stimuli.py:1184-1198 | the rolled position of a pixel lies inside the image |
| Pulse.MonitoringOf | physion/visual_stim/psychopy_code/stimuli.py:141-143 | Ton and Toff are int(1e3 * time) in milliseconds, truncated |
| Pulse.PyMod | physion/visual_stim/psychopy_code/stimuli.py:308-310 | Python's % takes the divisor's sign: in [0, b) for b > 0 and in (b, 0] for b < 0 |
| Pulse.PulseSchedule | physion/visual_stim/psychopy_code/stimuli.py:306-313 | before Tfull the square follows the half-period grid dt mod Tfull_first < Ton, after it the full period dt mod Tfull < Ton |
| Pulse.ValidNeverFails | physion/visual_stim/psychopy_code/stimuli.py:306-313 | with Tfull_first > 0 the pulse never reaches a modulo by zero |
| Pulse.FiftyFiftyPulse | physion/visual_stim/psychopy_code/stimuli.py:306-313 | with Ton = Toff = 50 ms the square is on exactly during the first 150 ms of an episode and then follows the full period |
| Pulse.InlineAgrees | physion/visual_stim/psychopy_code/stimuli.py:334-340 | the static loop's inline copy, with three equal clock readings, decides as add_monitoring_signal |
| Pulse.SinglePulseWindow | physion/visual_stim/psychopy_code/stimuli.py:315-320 | the single pulse is on exactly during the first Ton milliseconds |
| Presentation.LoopFor | physion/visual_stim/psychopy_code/stimuli.py:404-411 | frame_run_type selects the drifting, array or sequence loop by name, and the static loop for anything else |
| Presentation.FrameCountSpec | physion/visual_stim/psychopy_code/stimuli.py:331 | frame f is drawn exactly while f frame periods are below the duration |
| Presentation.ClockReading | physion/visual_stim/psychopy_code/stimuli.py:329-331 | at frame f the vsync clock reads f frame periods after the start |
| Presentation.LoopTest | physion/visual_stim/psychopy_code/stimuli.py:331 | the loop test (clock - start) < duration holds exactly for the frames below the frame count |
| Presentation.DriftingStep | physion/visual_stim/psychopy_code/stimuli.py:353-358 | each drifting frame advances the phase by speed times one frame period, and the first by none |
| Presentation.DriftingPhase | physion/visual_stim/psychopy_code/stimuli.py:349-358 | over n frames the phase advances telescope to speed times the clock time from the first frame to the last |
| Presentation.StaticFrame | physion/visual_stim/psychopy_code/stimuli.py:331-344 | under a timing with Tfull_first > 0 a static frame draws the inline pulse decision without raising and shows it |
| Presentation.DriftingFrame | physion/visual_stim/psychopy_code/stimuli.py:352-362 | a drifting frame whose pulse succeeds shows the repeating pulse and the phase step: one more frame of the loop, with every frame so far drawn |
| Presentation.ImageFrame | physion/visual_stim/psychopy_code/stimuli.py:373-379 | an array frame, whatever the timing, draws without raising and shows the single pulse |
| Presentation.SequenceFrame | physion/visual_stim/psychopy_code/stimuli.py:392-399 | under a timing with Tfull_first > 0 an image-sequence frame shows the repeating pulse without raising |
| Presentation.FramePulse | physion/visual_stim/psychopy_code/stimuli.py:306-320 | the array loop's square never raises, and any failure of the others is a ZeroDivisionError |
| Presentation.RaisingFrame | physion/visual_stim/psychopy_code/stimuli.py:328-399 | the first frame whose square raises, every frame before it drawn; n when none raises |
| Presentation.RaisingFrameExact | physion/visual_stim/psychopy_code/stimuli.py:328-399 | a frame that fails after frames that all drew is the raising frame |
| Presentation.ValidNeverRaises | physion/visual_stim/psychopy_code/stimuli.py:306-313 | with Tfull_first > 0 no frame of any loop raises |
| Presentation.ImageNeverRaises | physion/visual_stim/psychopy_code/stimuli.py:315-320 | the array loop takes no modulo, so an array episode never raises, whatever the timing |
| Presentation.FirstFrameRaises | physion/visual_stim/psychopy_code/stimuli.py:306-313 | with int((Ton+Toff)/2) == 0 and Ton + Toff >= 0 the static, drifting and sequence loops raise on their first frame |
| Presentation.ShownRaises | physion/visual_stim/psychopy_code/stimuli.py:402-427 | episode i's block ends with the error exactly when its loop raised |
| Presentation.FirstRaise | physion/visual_stim/psychopy_code/stimuli.py:421-427 | the first block that raises, no earlier one raising; or the end when none does |
| Presentation.QuietSchedule | physion/visual_stim/psychopy_code/stimuli.py:419-434 | when every episode is an array episode or the timing has Tfull_first > 0, no block raises, so run reaches its closing unless stopped |
| Presentation.InvalidTimingRaises | physion/visual_stim/psychopy_code/stimuli.py:402-415 | with int((Ton+Toff)/2) == 0 a static, drifting or sequence episode with a frame due shows only its start line and the error |
| Presentation.FirstStop | physion/visual_stim/psychopy_code/stimuli.py:421-423 | the loop breaks at the first episode whose poll finds a key or the flag; no earlier poll did |
| Presentation.EpisodesShape | physion/visual_stim/psychopy_code/stimuli.py:421-427 | the episode loop shows every episode before the first stop, then the stop message, polling once per episode shown and once more when it stops; an episode before the stop that raises ends it after its own block |
| Presentation.RunShape | physion/visual_stim/psychopy_code/stimuli.py:419-434 | run shows the start screen unless stopped, the episodes before the first stop, the stop message if one happened, and the closing; an episode that raises before the stop ends run after its block, with no closing |
| Presentation.UninterruptedRun | physion/visual_stim/psychopy_code/stimuli.py:419-434 | with no key and a clear flag every episode runs up to the first that raises; when none raises both closing lines follow |
| Presentation.NoKeyNoStop | physion/visual_stim/psychopy_code/stimuli.py:421-423 | polls that find no key, with the flag clear, let every episode run |
| Presentation.StoppedClosing | physion/visual_stim/psychopy_code/stimuli.py:428-434 | once stopped, neither the end screen nor 'stimulation over !' is shown; only the frames are saved |
| Presentation.UnstoppedClosing | physion/visual_stim/psychopy_code/stimuli.py:428-431 | without a stop, the end screen opens the closing, and 'stimulation over !' appears exactly with a status bar |
| Presentation.ShownFrames | physion/visual_stim/psychopy_code/stimuli.py:402-427 | episode i's block opens with its start line, its frames belong to episode i and to the loop its run type selects, and it holds the ZeroDivisionError only when its loop raised |
| Presentation.InterPlacement | physion/visual_stim/psychopy_code/stimuli.py:426-427 | the inter-stimulus screen follows episode i exactly when it is not the last, did not raise, the stimulus has a blank_inter and the interstim is positive |
| Presentation.Turn | physion/visual_stim/psychopy_code/stimuli.py:421-427 | one turn of the loop ends it with the stop message, or shows block i and then ends when the episode raised or goes on |
| Presentation.Driver.StopSignal | physion/visual_stim/psychopy_code/stimuli.py:65-72 | stop_signal stops exactly when a key is pending or the flag is set; the flag then stays set and the stop message is logged |
| Presentation.Driver.StoreIfAsked | physion/visual_stim/psychopy_code/stimuli.py:413-415 | a movie frame is stored exactly when store_frame is set; flag and polls are unchanged |
| Presentation.Driver.StartScreen | physion/visual_stim/psychopy_code/stimuli.py:266-276 | the start screen, with its prestim period, and the stored frame when store_frame is set, are logged only when the flag is clear |
| Presentation.Driver.EndScreen | physion/visual_stim/psychopy_code/stimuli.py:279-289 | the end screen, with its poststim period, and the stored frame when asked, are logged only when the flag is clear |
| Presentation.Driver.InterScreen | physion/visual_stim/psychopy_code/stimuli.py:292-303 | the inter screen, with its colour and duration, is logged only with a clear flag, a blank_inter and a positive duration |
| Presentation.Driver.StaticPresentation | physion/visual_stim/psychopy_code/stimuli.py:328-344 | the static loop logs one frame per frame period below the duration, or none when stopped, up to the frame whose inline pulse divides by zero, which logs the error instead and returns raised |
| Presentation.Driver.DriftingPresentation | physion/visual_stim/psychopy_code/stimuli.py:348-363 | the drifting loop logs its frames with their phase steps up to a frame whose pulse divides by zero, which logs the error; a loop that ends normally stores the last frame |
| Presentation.Driver.ImagePresentation | physion/visual_stim/psychopy_code/stimuli.py:368-379 | the array loop logs its frames with the single pulse and never raises, whatever the timing |
| Presentation.Driver.SequencePresentation | physion/visual_stim/psychopy_code/stimuli.py:384-399 | the sequence loop logs its frames with the repeating pulse up to a frame whose pulse divides by zero, which logs the error and returns raised |
| Presentation.Driver.SingleEpisodeRun | physion/visual_stim/psychopy_code/stimuli.py:402-415 | single_episode_run logs the events of the loop its run type selects, then, unless the loop raised, the stored frame if asked |
| Presentation.Driver.NextEpisode | physion/visual_stim/psychopy_code/stimuli.py:421-427 | one turn polls once and logs either the stop message or episode i's block, and reports raised exactly when that block ends with the error |
| Presentation.Driver.Finish | physion/visual_stim/psychopy_code/stimuli.py:428-434 | the end of run logs the closing for the current flag |
| Presentation.Driver.Episodes | physion/visual_stim/psychopy_code/stimuli.py:421-427 | the episode loop logs EpisodesFrom, leaves the flag and poll count it describes, and reports whether an episode raised |
| Presentation.Driver.Run | physion/visual_stim/psychopy_code/stimuli.py:419-434 | run appends exactly RunTrace to the log, leaves the flag and poll count RunTrace describes, and skips the closing exactly when an episode raised |
| Selectivity.RepeatedTrialCount | physion/analysis/orientation_direction_selectivity.py:39-41 | np.sum(cond) is the multiplicity of the varied value among the episodes, a negative index reading from the end as Python does; an index outside the values fails |
| Selectivity.CountIsMultiplicity | physion/analysis/orientation_direction_selectivity.py:40-41 | the count of matching episodes is the value's multiplicity |
| Selectivity.Integral | physion/analysis/orientation_direction_selectivity.py:47-50 | the baseline-subtracted trapezoid integral is a number exactly when some time is at or before 0 or the stimulus window holds fewer than two samples, and is 0 in the second case; otherwise the NaN baseline enters the sum |
| Selectivity.TrapzShift | physion/analysis/orientation_direction_selectivity.py:49 | subtracting a baseline b lowers np.trapz by b per interval |
| Selectivity.IntegralResponses | physion/analysis/orientation_direction_selectivity.py:43-50 | one integral per varied value, each clipped to [0, 1e12]; NaN exactly when there is a value, no time is at or before 0 and at least two times lie in the stimulus window |
| Selectivity.IntegralsClipped | physion/analysis/orientation_direction_selectivity.py:50 | the clip keeps values in [0, 1e12] unchanged and sends negatives to 0 |
| Selectivity.AngleResponsive | physion/analysis/orientation_direction_selectivity.py:103-105 | one angle is responsive exactly when the stimulus-window maximum exceeds threshold times the pre-window mean std; an empty window fails |
| Selectivity.Responsiveness | physion/analysis/orientation_direction_selectivity.py:96-107 | responsiveness is true exactly when some angle exceeds; an empty stimulus window fails whenever there is an angle |
| Selectivity.SomeExceedsIff | physion/analysis/orientation_direction_selectivity.py:100-106 | the loop's flag after n angles is true exactly when one of them exceeded |
| Selectivity.ArgMax | physion/analysis/orientation_direction_selectivity.py:110 | np.argmax gives the first index of a maximum |
| Selectivity.ArgMin | physion/analysis/orientation_direction_selectivity.py:111 | np.argmin gives the first index of a minimum |
| Selectivity.OrientationSelectivityIndex | physion/analysis/orientation_direction_selectivity.py:109-115 | the index lies in [0, 1] and is 0 for a non-positive peak; it fails on empty responses and on out-of-range indices |
| Selectivity.UnclampedIndex | physion/analysis/orientation_direction_selectivity.py:112-113 | with non-negative responses and a positive peak the index is (a - b)/(a + b): 0 iff the orthogonal response equals the peak, 1 iff it is 0 |
| Selectivity.OppositeIsClosest | physion/analysis/orientation_direction_selectivity.py:111 | iop is the first angle closest to the orthogonal of the preferred one |
| StatTools.PvalToStar | physion/analysis/stat_tools.py:24-35 | the label is 'n.s.' exactly when p >= 0.05, and the size grows by one exactly when p < 0.05 |
| StatTools.StarsCountThresholds | physion/analysis/stat_tools.py:24-35 | the label carries one star per threshold (1e-3, 1e-2, 0.05) the p-value lies below |
| StatTools.StarsMonotone | physion/analysis/stat_tools.py:24-35 | a smaller p-value never earns fewer stars |
| StatTools.PvalueKeywordIgnored | physion/analysis/stat_tools.py:24 | the pvalue keyword never changes the result |
| Pupil.VisitedFrames | physion/pupil/process.py:140 | the visited frames end with nframes - 1; a zero subsampling step fails (ValueError) |
| Pupil.VisitedShape | physion/pupil/process.py:140 | the visited frames start at 0, stay in range, climb by the step, and end at nframes - 1 within one step |
| Pupil.VisitedIncreasing | physion/pupil/process.py:140 | the visited frames are strictly increasing |
| Pupil.NoFrames | physion/pupil/process.py:140 | with no frame at all the loop visits frame -1 only |
| Pupil.Widened | physion/pupil/process.py:150-151 | a circle fit gains a copy of its last coordinate; an empty circle fit fails (IndexError); an ellipse fit is kept |
| Pupil.RecordSucceeds | physion/pupil/process.py:147-156 | the record is built exactly when every visited frame's fit is usable |
| Pupil.RecordColumns | physion/pupil/process.py:152-156 | the record has one entry per frame in every list, in frame order, each read from that frame's fit |
| Pupil.AddFitHolds | physion/pupil/process.py:152-156 | adding a usable fit keeps every earlier entry and adds the new frame's |
| Pupil.CircleIsRound | physion/pupil/process.py:150-151 | a widened circle fit has sy equal to sx |
| Pupil.WithBlinking | physion/pupil/process.py:165-167 | blinking is all zeros, one per cx entry, and nothing else changes |
| Pupil.PupilTracker.PerformLoop | physion/pupil/process.py:126-168 | perform_loop fails exactly on a zero step or an unusable fit; otherwise it returns the record with blinking, and cframe ends at the last frame |
| Pupil.Thresholded | physion/pupil/process.py:269-271 | a thresholded pixel never exceeds saturation, and an inside pixel below saturation is kept |
| Pupil.Threshold | physion/pupil/process.py:268-271 | the in-place thresholding leaves every pixel Thresholded and at most saturation |
| Pupil.MaskOutside | physion/pupil/process.py:269 | pixels outside the fit area become saturation; the rest are unchanged |
| Pupil.ClipAbove | physion/pupil/process.py:270-271 | pixels at or above saturation become saturation; the rest are unchanged |
| Pupil.ThresholdIdempotent | physion/pupil/process.py:268-271 | thresholding twice changes nothing more |
| Pupil.Binary | physion/pupil/process.py:72-74 | a fitted pixel is 1 exactly below saturation and 0 exactly at or above |
| Pupil.Binarize | physion/pupil/process.py:72-74 | the binarised copy holds Binary of every pixel and has the image's shape |
| Pupil.SetWhere | physion/pupil/process.py:73-74 | a masked assignment writes exactly the masked pixels |
| Pupil.BinaryAfterThreshold | physion/pupil/process.py:72-74 | after thresholding, the pupil mask is exactly the fit-area pixels below saturation |
| Pupil.ClipToFiniteValues | physion/pupil/process.py:232-238 | clip_to_finite_values returns the data unchanged: a key is a string, so the array test never holds |

## Left out

- PsychoPy rendering (windows, gratings, image stimuli, flips, movie frames, gamma correction, screen geometry and angle-to-pixel conversion): the presentation model logs abstract events in their place.
- The presentation's clock and keyboard are inputs. The clock is vsync: each reading is the sum of the frame periods, with no dropped frames. Keys are a sequence of poll results. `clock.wait` is not modelled.
- A stop requested through the GUI during a frame loop: the stop flag is taken as constant inside one episode's frame loop.
- Presentation.Driver.SequencePresentation: the indexing of FRAMES by `time_indices[int(t*frame_refresh)]` is not modelled; a sequence frame records its pulse, not which image is drawn.
- Frame and pattern contents (`get_frame`, `get_patterns`, `get_image`) and the noise generators: a noise schedule takes the generator's change times as input.
- `generate_VSE` and the saccade times: they are inputs of the scene-exploration table.
- Randomness is a parameter: `np.random.shuffle` is a given permutation, `np.random.uniform` the given draws and `np.random.randn` the given interstims. Seeding is not modelled.
- The multiprotocol file mode reads JSON files from disk: the sub-protocols are inputs, and only the key storage is modelled.
- Floating point: reals are exact and `np.linspace` is exact. `int()` truncation toward zero is modelled explicitly, and so is Python's `%` on negative operands.
- NaN and empty reductions: an empty mean becomes `NotANumber`, and an empty max or argmax becomes `EmptyReduction`. No NaN value flows further.
- Pupil.PupilTracker.PerformLoop: the image fitting of `perform_fit` (center of mass, the optimiser, the residual) is an oracle `fitAt`. The progress bar is not modelled.
- Gaussian smoothing in `preprocess` is not modelled.
- `stat_test_for_evoked_responses` and the Wilcoxon test: `pval_to_star` takes the test result as input.
- The `deviant_episode` list of the oddball constructor is only kept for debugging and is not modelled.
- Plotting (`plot`, `add_stim`, `show_stim`, `add_bar`) is not modelled.
- A missing key is modelled only where `build_stim`, `init_experiment` and the composer read the protocol. Elsewhere (the presentation loop, the oddball and noise constructors, the frame tables) the protocol values are typed parameters.
- Experiments.InitExperiment: a value of the wrong type is reported after the lookups of its step. This covers text or None where a number goes, and a float where a count or a slice bound goes. Python may raise earlier; with text it may instead concatenate or repeat the value, or store it in a factor column when N-F <= 1. Integer timing values are stored as reals. A text or None value of 'presentation-prestim-period', 'presentation-duration', 'presentation-interstim-period' or 'presentation-interstim-screen' is stored as it is in time_start, time_duration, interstim and interstim-screen by the source (stimuli.py:211-215, 251-253), and reported as a failure by the model. When several faults coexist, the failure reported may differ from Python's first exception.
- Selectivity.RepeatedTrialCount: cells are compared structurally, so `Int(45)` and `Num(45.0)` differ, while numpy's `==` on the column finds them equal. The model takes the varied values from the key column itself, where both share one constructor.
- Selectivity.Count: the same structural comparison as `RepeatedTrialCount`.
- Schedules.DenseNoise: the base `init_experiment` call of the dense-noise constructor (stimuli.py:1279-1280) is skipped; only the generator's events set the schedule. That call reads the presentation keys and the prestim, duration and interstim values, and a missing one, such as 'presentation-interstim-screen', raises KeyError in the source but not in the model.
- The `print` calls of `pval_to_star` (stat_tools.py:26), of the unknown-test branch of `stat_test_for_evoked_responses` (stat_tools.py:21) and at the end of `perform_loop` (process.py:162) are console output and are not modelled.
- Multiprotocol.Compose: the rebuilt time columns are exact reals. numpy keeps the dtype of the selected columns, so when every start (or every stop) of the sub-schedules is an integer, the in-place writes truncate the rebuilt times: a stop of 7 plus an interstim of 1.5 is stored as 8. When several faults coexist, the failure reported may differ from Python's first exception.
- ProtocolKeys.StoreThenLoad: holds for sub-protocols whose keys contain no 'Protocol-' prefix. A nested multiprotocol sub-protocol breaks the round trip: its stored keys hold other sub-protocols' tags, and `str.replace` removes every occurrence of the tag.
- Shift.ComputeShiftedImage: the shifts lie between 0 and the image size. For a larger or a negative shift, numpy's slices clamp or count from the end, and the block copies either raise a broadcast error or copy other blocks; this is not modelled.
- Presentation.Driver.StartScreen, Presentation.Driver.EndScreen and Presentation.Driver.InterScreen: a stimulus without a window is not modelled. It raises in the source when it draws its blank screens. The `clock.wait` after each screen is logged as the screen's period.

Behaviours of the code a reader might not expect, which the model follows:
- Time-on plus time-off below 2 ms makes `Tfull_first` zero, and the first frame of a static, drifting or sequence episode then raises ZeroDivisionError before it is shown (`Presentation.InvalidTimingRaises`). The error leaves `run`: no later episode, inter screen, stored frame or closing follows. The array loop takes no modulo and runs under any timing.
- With Ton = Toff = 50 ms the repeating pulse stays on over the whole first 100 ms (`Pulse.FiftyFiftyPulse`), because `dt % Tfull_first < Ton` always holds there.
- Only `AttributeError` around a flip is caught, so a headless stimulus is not a silent no-op. That path is not modelled.
- The composer copies `time_duration` with the other keys and then appends the recomputed duration as well (see Findings).
- `clip_to_finite_values` never clips: it tests `type(key)`, where `type(data[key])` was meant, and a key is a string (process.py:232-238). `Pupil.ClipToFiniteValues` returns the data unchanged.
- An unknown `Presentation` value is not refused: `init_experiment` runs the sequence branch for anything other than 'Single-Stimulus' (stimuli.py:216), and so does the model, through `p.presentation != SingleStimulus`.

## Findings

| source | as written | input that shows it | evidently intended | confidence | as-written member | corrected member |
|---|---|---|---|---|---|---|
| physion/visual_stim/psychopy_code/stimuli.py:582-588 | every sub-schedule has a time_duration column, so line 582 copies it and line 588 appends stop - start as well: the column gets two entries per episode and the selection at line 596 reads the wrong ones | two one-episode sub-protocols stopping at 7 s and 5 s with prestim 2 s: time_duration reads [5, 5] and the second episode stops at 14 s instead of 12 s | one time_duration entry per episode, equal to that episode's stop - start | not executed | Multiprotocol.DurationCopiedTwiceExample | Multiprotocol.DurationOncePerEpisodeExample |
| physion/visual_stim/psychopy_code/stimuli.py:1081-1088 | the table is written before the frame counter moves on, so window step k points at blob k - 1 | any window with itstart < itend: step itstart shows the background, and the blob of step itend - 1 never appears | step k shows blob k | not executed | Frames.LastBlobNeverShown | Frames.CorrectedBlobShown |
| physion/visual_stim/psychopy_code/stimuli.py:1292-1298 | the dense index is np.arange(len(events)), one entry longer than the time columns | any dense generator with events: run reaches episode len(events) - 1, whose time_duration lookup raises IndexError | index of length len(events) - 1, as in the sparse schedule | not executed | Schedules.DenseIndexMismatch | Schedules.CorrectedDenseRectangular |
| physion/visual_stim/psychopy_code/stimuli.py:1194-1197 | the four block copies of compute_shifted_image pair the wrong blocks, so the result is not a circular shift | a 2x2 image shifted by (1, 1): output pixel (0, 1) comes from (1, 1), where a roll takes it from (1, 0) | a circular roll of the image by (ix, iy) | not executed | Shift.DiagonalShiftExample | Shift.RollImage |
