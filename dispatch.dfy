/**
 * build_stim: which stimulus class a protocol dictionary is handed to.
 * The protocol is a dictionary from parameter names to values; the result
 * names the constructor called (the construction itself is modelled in the
 * modules of each family), or None where build_stim returns None.
 */
module Dispatch {
  import opened Wrappers
  import opened Values

  /** The stimulus classes build_stim can construct. */
  datatype Stim =
    | MultiprotocolStim
    | LightLevel
    | FullFieldGrating
    | OddballFullFieldGrating
    | CenterGrating
    | OffCenterGrating
    | SurroundGrating
    | DriftingFullFieldGrating
    | DriftingCenterGrating
    | DriftingOffCenterGrating
    | DriftingSurroundGrating
    | NaturalImage
    | NaturalImageVse
    | SparseNoise
    | DenseNoise
    | GaussianBlobs

  /** The 'Stimulus' value that selects each single-family class. */
  function StimulusName(s: Stim): string
  {
    match s
    case MultiprotocolStim => "multiprotocol"
    case LightLevel => "light-level"
    case FullFieldGrating => "full-field-grating"
    case OddballFullFieldGrating => "oddball-full-field-grating"
    case CenterGrating => "center-grating"
    case OffCenterGrating => "off-center-grating"
    case SurroundGrating => "surround-grating"
    case DriftingFullFieldGrating => "drifting-full-field-grating"
    case DriftingCenterGrating => "drifting-center-grating"
    case DriftingOffCenterGrating => "drifting-off-center-grating"
    case DriftingSurroundGrating => "drifting-surround-grating"
    case NaturalImage => "Natural-Image"
    case NaturalImageVse => "Natural-Image+VSE"
    case SparseNoise => "sparse-noise"
    case DenseNoise => "dense-noise"
    case GaussianBlobs => "gaussian-blobs"
  }

  /** The noise families, which only run as a single stimulus. */
  predicate IsNoise(s: Stim)
  {
    s == SparseNoise || s == DenseNoise
  }

  /** The single-family classes in the order the elif chain of build_stim (lines 25-58) tests them. */
  const Order: seq<Stim> := [LightLevel, FullFieldGrating, OddballFullFieldGrating, CenterGrating,
    OffCenterGrating, SurroundGrating, DriftingFullFieldGrating, DriftingCenterGrating,
    DriftingOffCenterGrating, DriftingSurroundGrating, NaturalImage, NaturalImageVse,
    SparseNoise, DenseNoise, GaussianBlobs]

  /** Where a single-family class stands in the chain. */
  function Position(s: Stim): (k: nat)
    requires s != MultiprotocolStim
    ensures k < |Order| && Order[k] == s
  {
    match s
    case LightLevel => 0
    case FullFieldGrating => 1
    case OddballFullFieldGrating => 2
    case CenterGrating => 3
    case OffCenterGrating => 4
    case SurroundGrating => 5
    case DriftingFullFieldGrating => 6
    case DriftingCenterGrating => 7
    case DriftingOffCenterGrating => 8
    case DriftingSurroundGrating => 9
    case NaturalImage => 10
    case NaturalImageVse => 11
    case SparseNoise => 12
    case DenseNoise => 13
    case GaussianBlobs => 14
  }

  /** Every class of the chain stands at its own position. */
  lemma {:induction false} PositionOfOrder(k: nat)
    requires k < |Order|
    ensures Order[k] != MultiprotocolStim && Position(Order[k]) == k
  {
  }

  /**
   * The elif chain of build_stim (lines 25-58) on the 'Stimulus' value: the
   * first class of the chain whose name the value is, None for a value it
   * does not recognise (lines 60-62).  The 'multiprotocol' branch is taken
   * on 'Presentation', so no Stimulus value selects it here.
   */
  function StimulusClass(v: Value): (r: Option<Stim>)
    ensures r.Some? ==> r.value != MultiprotocolStim && v == Text(StimulusName(r.value))
  {
    ClassFrom(v, 0)
  }

  /** The chain from its k-th test on. */
  function ClassFrom(v: Value, k: nat): (r: Option<Stim>)
    ensures r.Some? ==> r.value != MultiprotocolStim && v == Text(StimulusName(r.value))
    decreases |Order| - k
  {
    if k >= |Order| then None
    else if v == Text(StimulusName(Order[k])) then Some(Order[k])
    else ClassFrom(v, k + 1)
  }

  /** The length, first letter and tenth letter of a name: they tell the class names apart. */
  function Signature(name: string): (int, char, char)
    requires |name| > 9
  {
    (|name|, name[0], name[9])
  }

  lemma {:induction false} NameSignature(s: Stim)
    ensures |StimulusName(s)| > 9
    ensures Signature(StimulusName(s)) ==
      match s
      case MultiprotocolStim => (13, 'm', 'o')
      case LightLevel => (11, 'l', 'e')
      case FullFieldGrating => (18, 'f', 'd')
      case OddballFullFieldGrating => (26, 'o', 'u')
      case CenterGrating => (14, 'c', 'a')
      case OffCenterGrating => (18, 'o', 'r')
      case SurroundGrating => (16, 's', 'g')
      case DriftingFullFieldGrating => (27, 'd', 'f')
      case DriftingCenterGrating => (23, 'd', 'c')
      case DriftingOffCenterGrating => (27, 'd', 'o')
      case DriftingSurroundGrating => (25, 'd', 's')
      case NaturalImage => (13, 'N', 'm')
      case NaturalImageVse => (17, 'N', 'm')
      case SparseNoise => (12, 's', 'i')
      case DenseNoise => (11, 'd', 's')
      case GaussianBlobs => (14, 'g', 'b')
  {
  }

  /** No two classes share a name. */
  lemma {:induction false} NamesDistinct(a: Stim, b: Stim)
    requires a != b
    ensures StimulusName(a) != StimulusName(b)
  {
    NameSignature(a);
    NameSignature(b);
  }

  /**
   * build_stim (lines 16-62).  Indexing a key the dictionary lacks raises
   * KeyError; 'Presentation' is read first, 'Stimulus' only when it is not
   * 'multiprotocol', and 'Presentation' again for the noise families.
   */
  function BuildStim(protocol: map<string, Value>): (r: Result<Option<Stim>>)
    ensures r.Failure? <==> ("Presentation" !in protocol ||
      (protocol["Presentation"] != Text("multiprotocol") && "Stimulus" !in protocol))
    ensures r.Failure? ==> r.error == MissingKey
  {
    if "Presentation" !in protocol then Failure(MissingKey)
    else if protocol["Presentation"] == Text("multiprotocol") then Success(Some(MultiprotocolStim))
    else if "Stimulus" !in protocol then Failure(MissingKey)
    else
      match StimulusClass(protocol["Stimulus"])
      case None => Success(None)
      case Some(s) =>
        if IsNoise(s) && protocol["Presentation"] != Text("Single-Stimulus") then Success(None)
        else Success(Some(s))
  }

  /** The names are distinct: StimulusClass reads back every single-family name. */
  lemma {:induction false} NameRoundTrip(s: Stim)
    requires s != MultiprotocolStim
    ensures StimulusClass(Text(StimulusName(s))) == Some(s)
  {
    ReachedAt(s, 0);
  }

  /** The chain passes every test before the one for s, whose name matches none of them. */
  lemma {:induction false} ReachedAt(s: Stim, k: nat)
    requires s != MultiprotocolStim && k <= Position(s)
    ensures ClassFrom(Text(StimulusName(s)), k) == Some(s)
    decreases Position(s) - k
  {
    var v := Text(StimulusName(s));
    if k < Position(s) {
      PositionOfOrder(k);
      NamesDistinct(Order[k], s);
      assert ClassFrom(v, k) == ClassFrom(v, k + 1);
      ReachedAt(s, k + 1);
    } else {
      assert Order[k] == s;
    }
  }

  /** A Stimulus value is recognised exactly when it names one of the single-family classes. */
  lemma {:induction false} UnknownStimulus(v: Value)
    ensures StimulusClass(v).None? <==> forall s: Stim :: s != MultiprotocolStim ==> v != Text(StimulusName(s))
  {
    if StimulusClass(v).None? {
      forall s: Stim | s != MultiprotocolStim ensures v != Text(StimulusName(s)) {
        NameRoundTrip(s);
      }
    }
  }

  /** A multiprotocol presentation is composed whatever the Stimulus value, present or not. */
  lemma {:induction false} MultiprotocolWins(protocol: map<string, Value>)
    requires "Presentation" in protocol && protocol["Presentation"] == Text("multiprotocol")
    ensures BuildStim(protocol) == Success(Some(MultiprotocolStim))
  {
  }

  /**
   * What build_stim yields for a protocol that has both keys and is not a
   * multiprotocol: the named class, None for an unknown name, and None for
   * a noise family unless the presentation is a single stimulus.
   */
  lemma {:induction false} SingleFamilyDispatch(protocol: map<string, Value>, s: Stim)
    requires "Presentation" in protocol && "Stimulus" in protocol
    requires protocol["Presentation"] != Text("multiprotocol")
    requires s != MultiprotocolStim && protocol["Stimulus"] == Text(StimulusName(s))
    ensures BuildStim(protocol) == Success(Some(s)) <==>
      (!IsNoise(s) || protocol["Presentation"] == Text("Single-Stimulus"))
    ensures BuildStim(protocol).Success? && (BuildStim(protocol).value.None? <==>
      (IsNoise(s) && protocol["Presentation"] != Text("Single-Stimulus")))
  {
    NameRoundTrip(s);
  }

  /** Every class build_stim returns is the one its keys name, and a noise family comes only from a single-stimulus presentation. */
  lemma {:induction false} DispatchSound(protocol: map<string, Value>)
    requires BuildStim(protocol).Success? && BuildStim(protocol).value.Some?
    ensures var s := BuildStim(protocol).value.value;
      (s == MultiprotocolStim <==> protocol["Presentation"] == Text("multiprotocol")) &&
      (s != MultiprotocolStim ==> protocol["Stimulus"] == Text(StimulusName(s))) &&
      (IsNoise(s) ==> protocol["Presentation"] == Text("Single-Stimulus"))
  {
  }
}
