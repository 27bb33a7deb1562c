/**
 * How a multiprotocol stores its sub-protocols in its own protocol
 * dictionary: sub-protocol i is named by the key 'Protocol-i' and each of
 * its keys k is stored as 'Protocol-i-k' (multiprotocol.__init__).
 * A protocol dictionary is a list of distinct keys with their values, in
 * insertion order.
 */
module ProtocolKeys {
  import opened Values
  import opened Strings

  type Entries = seq<(string, Value)>

  const Prefix := "Protocol-"

  /** 'Protocol-%i' % i. */
  function Name(i: nat): (s: string)
    ensures |s| > |Prefix| && s[..|Prefix|] == Prefix
  {
    Prefix + NatToDecimal(i)
  }

  /** 'Protocol-%i-' % i: the prefix of every stored key of sub-protocol i. */
  function Tag(i: nat): (s: string)
    ensures |s| > |Prefix| + 1 && s[..|Prefix|] == Prefix && s[|s| - 1] == '-'
  {
    Prefix + NatToDecimal(i) + "-"
  }

  /** The keys of a protocol. */
  function KeysOf(entries: Entries): set<string>
  {
    set n | 0 <= n < |entries| :: entries[n].0
  }

  /** A key that belongs to no sub-protocol: it does not mention 'Protocol-' at all. */
  predicate Plain(key: string)
  {
    !Contains(key, Prefix)
  }

  /** No character after the first one of 'Protocol-' + digits + rest is a 'P' when rest has none. */
  lemma {:induction false} NoHeadAfterFirst(digits: string, rest: string)
    requires forall k :: 0 <= k < |digits| ==> IsDigit(digits[k])
    requires forall k :: 0 <= k < |rest| ==> rest[k] == '-'
    ensures var s := Prefix + digits + rest; forall k :: 1 <= k < |s| ==> s[k] != 'P'
  {
  }

  /** Two tags at the head of a key agree only when they are the same tag. */
  lemma {:induction false} TagHeadInjective(i: nat, j: nat, k: string)
    requires |Tag(j) + k| >= |Tag(i)| && (Tag(j) + k)[..|Tag(i)|] == Tag(i)
    ensures i == j
  {
    var di, dj := NatToDecimal(i), NatToDecimal(j);
    var s := Tag(j) + k;
    var n := |Prefix|;
    var m := if |di| < |dj| then |di| else |dj|;
    var c := s[n + m];
    assert c == Tag(i)[n + m];
    if m < |di| {
      assert Tag(i)[n + m] == di[m];
    } else {
      assert Tag(i)[n + m] == '-';
    }
    if m < |dj| {
      assert s[n + m] == dj[m];
    } else {
      assert s[n + m] == '-';
    }
    assert IsDigit(c) == (m < |di|) == (m < |dj|);
    assert di == Tag(i)[n..n + |di|] == s[n..n + |dj|] == dj;
    NatToDecimalInjective(i, j);
  }

  /** A stored key of sub-protocol j holds the tag of sub-protocol i only when j == i. */
  lemma {:induction false} OtherTagAbsent(i: nat, j: nat, k: string)
    requires Plain(k) && j != i
    ensures !Contains(Tag(j) + k, Tag(i))
  {
    var s := Tag(j) + k;
    var p := Tag(i);
    if Contains(s, p) {
      if s[..|p|] == p {
        TagHeadInjective(i, j, k);
      } else {
        assert Contains(s[1..], p);
        var a := Tag(j)[1..];
        assert s[1..] == a + k;
        NoHeadAfterFirst(NatToDecimal(j), "-");
        assert forall m :: 0 <= m < |a| ==> a[m] == Tag(j)[m + 1];
        ContainsSkipsHead(a, k, p);
        assert p == Prefix + (NatToDecimal(i) + "-");
        ContainsLonger(k, Prefix, NatToDecimal(i) + "-");
      }
    }
  }

  /** A name key 'Protocol-j' never holds a tag. */
  lemma {:induction false} NameHoldsNoTag(i: nat, j: nat)
    ensures !Contains(Name(j), Tag(i))
  {
    var s := Name(j);
    var p := Tag(i);
    var n := |Prefix|;
    var di, dj := NatToDecimal(i), NatToDecimal(j);
    if Contains(s, p) {
      if s[..|p|] != p {
        assert Contains(s[1..], p);
        NoHeadAfterFirst(dj, "");
        var a := s[1..];
        assert a + [] == a;
        ContainsSkipsHead(a, [], p);
      }
    }
  }

  /** A plain key holds no tag. */
  lemma {:induction false} PlainHoldsNoTag(i: nat, k: string)
    requires Plain(k)
    ensures !Contains(k, Tag(i))
  {
    if Contains(k, Tag(i)) {
      assert Tag(i) == Prefix + (NatToDecimal(i) + "-");
      ContainsLonger(k, Prefix, NatToDecimal(i) + "-");
    }
  }

  /** Removing the tag from a stored key gives back the sub-protocol key. */
  lemma {:induction false} StripTag(i: nat, k: string)
    requires Plain(k)
    ensures Contains(Tag(i) + k, Tag(i))
    ensures RemoveAll(Tag(i) + k, Tag(i)) == k
  {
    var s := Tag(i) + k;
    var p := Tag(i);
    assert s[..|p|] == p;
    assert s[|p|..] == k;
    PlainHoldsNoTag(i, k);
    RemoveAllAbsent(k, p);
  }

  // ---------------------------------------------------------------
  // Counting the sub-protocols
  // ---------------------------------------------------------------

  function NamesBelow(n: nat): set<string>
  {
    set j | 1 <= j < n :: Name(j)
  }

  lemma {:induction false} NameInjective(i: nat, j: nat)
    requires Name(i) == Name(j)
    ensures i == j
  {
    assert NatToDecimal(i) == Name(i)[|Prefix|..] == Name(j)[|Prefix|..] == NatToDecimal(j);
    NatToDecimalInjective(i, j);
  }

  /** The names 'Protocol-1' .. 'Protocol-(n-1)' are n - 1 distinct keys. */
  lemma {:induction false} NamesBelowSize(n: nat)
    requires n >= 1
    ensures |NamesBelow(n)| == n - 1
  {
    if n > 1 {
      NamesBelowSize(n - 1);
      assert NamesBelow(n) == NamesBelow(n - 1) + {Name(n - 1)};
      if Name(n - 1) in NamesBelow(n - 1) {
        var j :| 1 <= j < n - 1 && Name(j) == Name(n - 1);
        NameInjective(j, n - 1);
      }
    } else {
      assert NamesBelow(n) == {};
    }
  }

  lemma {:induction false} SubsetSize(a: set<string>, b: set<string>)
    requires a <= b
    ensures |a| <= |b|
    decreases |a|
  {
    if a != {} {
      var x :| x in a;
      SubsetSize(a - {x}, b - {x});
    }
  }

  /**
   * The while loop of multiprotocol.__init__: sub-protocols are numbered from
   * 1 up to the first number whose 'Protocol-i' key is missing.
   */
  method CountSubProtocols(keys: set<string>) returns (n: nat)
    ensures forall j :: 1 <= j <= n ==> Name(j) in keys
    ensures Name(n + 1) !in keys
  {
    var i := 1;
    NamesBelowSize(i);
    while Name(i) in keys
      invariant i >= 1
      invariant forall j :: 1 <= j < i ==> Name(j) in keys
      invariant NamesBelow(i) <= keys
      invariant |NamesBelow(i)| == i - 1
      decreases |keys| - (i - 1)
    {
      assert NamesBelow(i + 1) <= keys;
      NamesBelowSize(i + 1);
      SubsetSize(NamesBelow(i + 1), keys);
      i := i + 1;
    }
    n := i - 1;
  }

  // ---------------------------------------------------------------
  // Reading a sub-protocol back (load_from_protocol_data)
  // ---------------------------------------------------------------

  /** The keys every sub-protocol read back starts with. */
  function Base(screen: Value): map<string, Value>
  {
    map["Screen" := screen, "Presentation" := Text(""), "no-window" := Bool(true)]
  }

  /** The protocol as a dictionary: a later entry for a key wins. */
  function AsMap(entries: Entries): (m: map<string, Value>)
    ensures m.Keys == KeysOf(entries)
  {
    if entries == [] then map[]
    else
      var init := entries[..|entries| - 1];
      assert KeysOf(entries) == KeysOf(init) + {entries[|entries| - 1].0} by {
        assert forall n :: 0 <= n < |init| ==> init[n] == entries[n];
      }
      AsMap(init)[entries[|entries| - 1].0 := entries[|entries| - 1].1]
  }

  /**
   * Sub-protocol i read back from the entries: every key holding the tag is
   * stored with its tag removed, a later key winning.
   */
  function Decode(i: nat, screen: Value, entries: Entries): map<string, Value>
  {
    if entries == [] then Base(screen)
    else
      var m := Decode(i, screen, entries[..|entries| - 1]);
      var (key, value) := entries[|entries| - 1];
      if Contains(key, Tag(i)) then m[RemoveAll(key, Tag(i)) := value] else m
  }

  /** The key loop of load_from_protocol_data for sub-protocol i. */
  method LoadSubProtocol(i: nat, screen: Value, protocol: Entries) returns (sub: map<string, Value>)
    ensures sub == Decode(i, screen, protocol)
  {
    sub := Base(screen);
    var n := 0;
    while n < |protocol|
      invariant 0 <= n <= |protocol|
      invariant sub == Decode(i, screen, protocol[..n])
    {
      var (key, value) := protocol[n];
      assert protocol[..n + 1][..n] == protocol[..n];
      if Contains(key, Tag(i)) {
        sub := sub[RemoveAll(key, Tag(i)) := value];
      }
      n := n + 1;
    }
    assert protocol[..n] == protocol;
  }

  /**
   * load_from_protocol_data: reads back sub-protocols 1, 2, ... up to the
   * first missing 'Protocol-i' key.
   */
  method LoadFromProtocolData(screen: Value, protocol: Entries) returns (subs: seq<map<string, Value>>)
    ensures forall j :: 1 <= j <= |subs| ==> Name(j) in KeysOf(protocol)
    ensures Name(|subs| + 1) !in KeysOf(protocol)
    ensures forall j :: 0 <= j < |subs| ==> subs[j] == Decode(j + 1, screen, protocol)
  {
    var keys := KeysOf(protocol);
    var count := CountSubProtocols(keys);
    subs := [];
    var i := 1;
    while i <= count
      invariant 1 <= i <= count + 1 && |subs| == i - 1
      invariant forall j :: 0 <= j < |subs| ==> subs[j] == Decode(j + 1, screen, protocol)
    {
      var sub := LoadSubProtocol(i, screen, protocol);
      subs := subs + [sub];
      i := i + 1;
    }
  }

  // ---------------------------------------------------------------
  // Storing a sub-protocol (file mode)
  // ---------------------------------------------------------------

  /**
   * protocol[key] = value on an insertion-ordered dictionary: a new key is
   * added at the end; a key already there takes the new value where it
   * stands, and every other entry is left as it was.
   */
  function Put(entries: Entries, key: string, value: Value): (r: Entries)
    ensures KeysOf(r) == KeysOf(entries) + {key}
    ensures key !in KeysOf(entries) ==> r == entries + [(key, value)]
    ensures key in KeysOf(entries) ==>
      |r| == |entries| &&
      forall n :: 0 <= n < |entries| ==> r[n] == if entries[n].0 == key then (key, value) else entries[n]
  {
    if key in KeysOf(entries) then
      var r := Overwrite(entries, key, value);
      assert KeysOf(r) == KeysOf(entries) by {
        assert forall n :: 0 <= n < |r| ==> r[n].0 == entries[n].0;
      }
      r
    else
      var r := entries + [(key, value)];
      assert KeysOf(r) == KeysOf(entries) + {key} by {
        assert r[|entries|].0 == key;
        assert forall n :: 0 <= n < |entries| ==> r[n] == entries[n];
      }
      r
  }

  /** Every entry with the given key takes the new value where it stands. */
  function Overwrite(entries: Entries, key: string, value: Value): (r: Entries)
    ensures |r| == |entries|
    ensures forall n :: 0 <= n < |entries| ==> r[n] == if entries[n].0 == key then (key, value) else entries[n]
    decreases |entries|
  {
    if entries == [] then []
    else [if entries[0].0 == key then (key, value) else entries[0]] + Overwrite(entries[1..], key, value)
  }

  /** The assignments protocol[k] = v for the entries (k, v) of more, in order. */
  function PutAll(entries: Entries, more: Entries): (r: Entries)
    ensures KeysOf(r) == KeysOf(entries) + KeysOf(more)
    decreases |more|
  {
    if more == [] then entries
    else
      var init := more[..|more| - 1];
      assert KeysOf(more) == KeysOf(init) + {more[|more| - 1].0} by {
        assert forall n :: 0 <= n < |init| ==> init[n] == more[n];
      }
      Put(PutAll(entries, init), more[|more| - 1].0, more[|more| - 1].1)
  }

  /** One more assignment after the others. */
  lemma {:induction false} PutAllSnoc(entries: Entries, more: Entries, key: string, value: Value)
    ensures PutAll(entries, more + [(key, value)]) == Put(PutAll(entries, more), key, value)
  {
    assert (more + [(key, value)])[..|more|] == more;
  }

  /** A key that no entry carries is not a key of the protocol. */
  lemma {:induction false} NotAKey(entries: Entries, key: string)
    requires forall n :: 0 <= n < |entries| ==> entries[n].0 != key
    ensures key !in KeysOf(entries)
  {
  }

  /** Assigning distinct keys that are all new appends them in order. */
  lemma {:induction false} PutAllFresh(entries: Entries, more: Entries)
    requires forall a, b :: 0 <= a < b < |more| ==> more[a].0 != more[b].0
    requires forall n :: 0 <= n < |more| ==> more[n].0 !in KeysOf(entries)
    ensures PutAll(entries, more) == entries + more
    decreases |more|
  {
    if more != [] {
      var init := more[..|more| - 1];
      var last := more[|more| - 1];
      assert more == init + [last];
      assert forall n :: 0 <= n < |init| ==> init[n] == more[n];
      PutAllFresh(entries, init);
      PutAllSnoc(entries, init, last.0, last.1);
      assert last.0 !in KeysOf(entries + init) by {
        assert forall n :: 0 <= n < |init| ==> init[n].0 != last.0;
        assert KeysOf(entries + init) == KeysOf(entries) + KeysOf(init) by {
          assert PutAll(entries, init) == entries + init;
        }
        NotAKey(init, last.0);
      }
    }
  }

  lemma {:induction false} KeysOfCons(entries: Entries)
    requires entries != []
    ensures KeysOf(entries) == {entries[0].0} + KeysOf(entries[1..])
  {
    forall k | k in KeysOf(entries) ensures k in {entries[0].0} + KeysOf(entries[1..]) {
      var n :| 0 <= n < |entries| && entries[n].0 == k;
      if n > 0 {
        assert entries[1..][n - 1].0 == k;
      }
    }
    forall k | k in KeysOf(entries[1..]) ensures k in KeysOf(entries) {
      var n :| 0 <= n < |entries[1..]| && entries[1..][n].0 == k;
      assert entries[n + 1].0 == k;
    }
  }

  /** The stored form of a sub-protocol: each key k becomes 'Protocol-i-k'. */
  function Encoded(i: nat, sub: Entries): (r: Entries)
    ensures |r| == |sub| && forall n :: 0 <= n < |sub| ==> r[n] == (Tag(i) + sub[n].0, sub[n].1)
  {
    seq(|sub|, n requires 0 <= n < |sub| => (Tag(i) + sub[n].0, sub[n].1))
  }

  /**
   * The key loop of the file mode: protocol['Protocol-i-k'] = v for every
   * key k of sub-protocol i, in order.  When the protocol holds no key with
   * the tag of i yet, every stored key is new and lands at the end.
   */
  method StoreSubProtocol(protocol: Entries, i: nat, sub: Entries) returns (r: Entries)
    ensures r == PutAll(protocol, Encoded(i, sub))
    ensures ((forall a, b :: 0 <= a < b < |sub| ==> sub[a].0 != sub[b].0) &&
             (forall n :: 0 <= n < |protocol| ==> !Contains(protocol[n].0, Tag(i)))) ==>
      r == protocol + Encoded(i, sub)
  {
    r := protocol;
    var n := 0;
    while n < |sub|
      invariant 0 <= n <= |sub|
      invariant r == PutAll(protocol, Encoded(i, sub[..n]))
    {
      StoreStep(protocol, i, sub, n);
      r := Put(r, Tag(i) + sub[n].0, sub[n].1);
      n := n + 1;
    }
    assert sub[..n] == sub;
    FreshTags(protocol, i, sub);
  }

  /** One turn of the key loop stores the next tagged key. */
  lemma {:induction false} StoreStep(protocol: Entries, i: nat, sub: Entries, n: nat)
    requires n < |sub|
    ensures PutAll(protocol, Encoded(i, sub[..n + 1])) ==
      Put(PutAll(protocol, Encoded(i, sub[..n])), Tag(i) + sub[n].0, sub[n].1)
  {
    var key := Tag(i) + sub[n].0;
    assert Encoded(i, sub[..n + 1]) == Encoded(i, sub[..n]) + [(key, sub[n].1)];
    PutAllSnoc(protocol, Encoded(i, sub[..n]), key, sub[n].1);
  }

  /** Distinct keys tagged by i are distinct, and new to a protocol holding no tag of i. */
  lemma {:induction false} FreshTags(protocol: Entries, i: nat, sub: Entries)
    ensures ((forall a, b :: 0 <= a < b < |sub| ==> sub[a].0 != sub[b].0) &&
             (forall n :: 0 <= n < |protocol| ==> !Contains(protocol[n].0, Tag(i)))) ==>
      PutAll(protocol, Encoded(i, sub)) == protocol + Encoded(i, sub)
  {
    if (forall a, b :: 0 <= a < b < |sub| ==> sub[a].0 != sub[b].0) &&
       (forall n :: 0 <= n < |protocol| ==> !Contains(protocol[n].0, Tag(i))) {
      FreshTagsHold(protocol, i, sub);
    }
  }

  lemma {:induction false} FreshTagsHold(protocol: Entries, i: nat, sub: Entries)
    requires forall a, b :: 0 <= a < b < |sub| ==> sub[a].0 != sub[b].0
    requires forall m :: 0 <= m < |protocol| ==> !Contains(protocol[m].0, Tag(i))
    ensures PutAll(protocol, Encoded(i, sub)) == protocol + Encoded(i, sub)
  {
    var e := Encoded(i, sub);
    var t := Tag(i);
    forall a, b | 0 <= a < b < |e|
      ensures e[a].0 != e[b].0
    {
      assert (t + sub[a].0)[|t|..] == sub[a].0;
      assert (t + sub[b].0)[|t|..] == sub[b].0;
    }
    forall n | 0 <= n < |e|
      ensures e[n].0 !in KeysOf(protocol)
    {
      var key := t + sub[n].0;
      assert key[..|t|] == t;
      assert Contains(key, t);
    }
    PutAllFresh(protocol, e);
  }

  /** Decoding after more entries that hold no tag of i changes nothing. */
  lemma {:induction false} DecodeIgnores(i: nat, screen: Value, entries: Entries, more: Entries)
    requires forall n :: 0 <= n < |more| ==> !Contains(more[n].0, Tag(i))
    ensures Decode(i, screen, entries + more) == Decode(i, screen, entries)
    decreases |more|
  {
    if more != [] {
      var init := more[..|more| - 1];
      assert (entries + more)[..|entries + more| - 1] == entries + init;
      DecodeIgnores(i, screen, entries, init);
    } else {
      assert entries + more == entries;
    }
  }

  /**
   * Round trip: storing sub-protocol i in a protocol that holds no key of
   * sub-protocol i and reading it back gives the three base keys overridden
   * by the sub-protocol's own keys.
   */
  lemma {:induction false} StoreThenLoad(i: nat, screen: Value, protocol: Entries, sub: Entries)
    requires forall n :: 0 <= n < |sub| ==> Plain(sub[n].0)
    requires forall n :: 0 <= n < |protocol| ==> !Contains(protocol[n].0, Tag(i))
    ensures Decode(i, screen, protocol + Encoded(i, sub)) == Base(screen) + AsMap(sub)
    decreases |sub|
  {
    if sub == [] {
      assert protocol + Encoded(i, sub) == protocol + [];
      DecodeIgnores(i, screen, protocol, []);
      DecodeIgnores(i, screen, [], protocol);
      assert [] + protocol == protocol;
    } else {
      var init := sub[..|sub| - 1];
      var last := sub[|sub| - 1];
      var whole := protocol + Encoded(i, sub);
      EncodedSnoc(i, protocol, sub);
      StoreThenLoad(i, screen, protocol, init);
      StripTag(i, last.0);
      DecodeLast(i, screen, whole);
      UpdateUnion(Base(screen), AsMap(init), last.0, last.1);
    }
  }

  /** The stored entries end with the last key of the sub-protocol, tagged. */
  lemma {:induction false} EncodedSnoc(i: nat, protocol: Entries, sub: Entries)
    requires sub != []
    ensures var whole := protocol + Encoded(i, sub);
      whole[..|whole| - 1] == protocol + Encoded(i, sub[..|sub| - 1]) &&
      whole[|whole| - 1] == (Tag(i) + sub[|sub| - 1].0, sub[|sub| - 1].1)
  {
    var whole := protocol + Encoded(i, sub);
    assert whole[..|whole| - 1] == protocol + Encoded(i, sub[..|sub| - 1]);
  }

  /** Reading back the last entry of a protocol. */
  lemma {:induction false} DecodeLast(i: nat, screen: Value, entries: Entries)
    requires entries != []
    ensures var (key, value) := entries[|entries| - 1];
      Decode(i, screen, entries) ==
        if Contains(key, Tag(i)) then Decode(i, screen, entries[..|entries| - 1])[RemoveAll(key, Tag(i)) := value]
        else Decode(i, screen, entries[..|entries| - 1])
  {
  }

  lemma {:induction false} UpdateUnion(a: map<string, Value>, b: map<string, Value>, k: string, v: Value)
    ensures (a + b)[k := v] == a + b[k := v]
  {
  }

  /**
   * The keys of other sub-protocols, the 'Protocol-j' names and plain keys
   * never leak into sub-protocol i.
   */
  lemma {:induction false} OnlyOwnKeysDecode(i: nat, j: nat, screen: Value, protocol: Entries, sub: Entries, plain: Entries, names: seq<nat>)
    requires j != i
    requires forall n :: 0 <= n < |sub| ==> Plain(sub[n].0)
    requires forall n :: 0 <= n < |plain| ==> Plain(plain[n].0)
    ensures Decode(i, screen, protocol + Encoded(j, sub)) == Decode(i, screen, protocol)
    ensures Decode(i, screen, protocol + plain) == Decode(i, screen, protocol)
    ensures Decode(i, screen, protocol + seq(|names|, n requires 0 <= n < |names| => (Name(names[n]), Text("")))) ==
            Decode(i, screen, protocol)
  {
    forall n | 0 <= n < |sub| ensures !Contains(Encoded(j, sub)[n].0, Tag(i)) {
      OtherTagAbsent(i, j, sub[n].0);
    }
    DecodeIgnores(i, screen, protocol, Encoded(j, sub));
    forall n | 0 <= n < |plain| ensures !Contains(plain[n].0, Tag(i)) {
      PlainHoldsNoTag(i, plain[n].0);
    }
    DecodeIgnores(i, screen, protocol, plain);
    var named := seq(|names|, n requires 0 <= n < |names| => (Name(names[n]), Text("")));
    forall n | 0 <= n < |names| ensures !Contains(named[n].0, Tag(i)) {
      NameHoldsNoTag(i, names[n]);
    }
    DecodeIgnores(i, screen, protocol, named);
  }
}
