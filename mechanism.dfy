/**
 * The mechanism types a node can run as (consensus/avail/mechanism.go):
 * a string-backed enumeration, its lookup table and the parsers over it.
 */
module Mechanism {
  import opened Results

  /** A mechanism type is a string; any string converts to one, only four are known. */
  datatype MechanismType = MechanismType(name: string)

  const BootstrapSequencer := MechanismType("bootstrap-sequencer")
  const Sequencer := MechanismType("sequencer")
  const Validator := MechanismType("validator")
  const WatchTower := MechanismType("watchtower")

  /** The lookup table from configuration strings to mechanism types. */
  const MechanismTypes: map<string, MechanismType> := map[
    "bootstrap-sequencer" := BootstrapSequencer,
    "sequencer" := Sequencer,
    "validator" := Validator,
    "watchtower" := WatchTower
  ]

  /** The four known mechanism types. */
  predicate IsKnown(t: MechanismType) {
    t == BootstrapSequencer || t == Sequencer || t == Validator || t == WatchTower
  }

  datatype ParseError = InvalidMechanismType(mechanism: string)

  /** The string a mechanism type is made of; converting it back gives the same type. */
  function String(t: MechanismType): (s: string)
    ensures MechanismType(s) == t
  {
    t.name
  }

  /**
   * `s` with every `from` replaced by `to`, character by character: no `from`
   * is left over, and every other character stays where it was.
   */
  function ReplaceAll(s: string, from: char, to: char): (r: string)
    ensures |r| == |s|
    ensures forall i :: 0 <= i < |s| ==> r[i] == if s[i] == from then to else s[i]
    ensures from != to ==> from !in r
    ensures forall c :: c != from && c != to ==> (c in r <==> c in s)
  {
    seq(|s|, i requires 0 <= i < |s| => if s[i] == from then to else s[i])
  }

  /** Replacing back undoes a replacement when the replacement character did not occur before. */
  lemma ReplaceAllInverse(s: string, from: char, to: char)
    requires to !in s && from != to
    ensures ReplaceAll(ReplaceAll(s, from, to), to, from) == s
  {
    var back := ReplaceAll(ReplaceAll(s, from, to), to, from);
    forall i | 0 <= i < |s| ensures back[i] == s[i] {
      assert s[i] != to;
    }
  }

  /** The form of a mechanism type used in log keys: dashes become underscores. */
  function LogString(t: MechanismType): (s: string)
    ensures |s| == |String(t)|
    ensures '-' !in s
    ensures forall i :: 0 <= i < |s| ==> s[i] == if String(t)[i] == '-' then '_' else String(t)[i]
  {
    ReplaceAll(String(t), '-', '_')
  }

  /** Looks a configuration string up in the table; an unknown string is an error naming it. */
  function ParseType(mechanism: string): (r: Result<MechanismType, ParseError>)
    ensures r.Ok? <==> mechanism in {"bootstrap-sequencer", "sequencer", "validator", "watchtower"}
    ensures r.Ok? ==> IsKnown(r.value) && String(r.value) == mechanism
    ensures r.Err? ==> r.error == InvalidMechanismType(mechanism)
  {
    if mechanism in MechanismTypes then Ok(MechanismTypes[mechanism])
    else Err(InvalidMechanismType(mechanism))
  }

  /** Whether `mechanism` is one of the table's values, scanning them in no fixed order. */
  method MechanismExists(mechanism: MechanismType) returns (found: bool)
    ensures found <==> IsKnown(mechanism)
  {
    assert MechanismTypes.Values == {BootstrapSequencer, Sequencer, Validator, WatchTower} by {
      assert MechanismTypes["bootstrap-sequencer"] == BootstrapSequencer;
      assert MechanismTypes["sequencer"] == Sequencer;
      assert MechanismTypes["validator"] == Validator;
      assert MechanismTypes["watchtower"] == WatchTower;
    }
    var unvisited := MechanismTypes.Values;
    while unvisited != {}
      invariant unvisited <= MechanismTypes.Values
      invariant forall m :: m in MechanismTypes.Values && m !in unvisited ==> m != mechanism
      decreases unvisited
    {
      var m :| m in unvisited;
      if mechanism == m {
        return true;
      }
      unvisited := unvisited - {m};
    }
    return false;
  }

  /**
   * Parses every configuration string, all or nothing: the first invalid string
   * makes the whole result an error naming it, otherwise the i-th entry is the
   * type the i-th string names.
   */
  method ParseMechanismConfigTypes(mechanisms: seq<string>) returns (r: Result<seq<MechanismType>, ParseError>)
    ensures r.Ok? <==> forall i :: 0 <= i < |mechanisms| ==> ParseType(mechanisms[i]).Ok?
    ensures r.Ok? ==> |r.value| == |mechanisms|
    ensures r.Ok? ==> forall i :: 0 <= i < |mechanisms| ==>
      IsKnown(r.value[i]) && String(r.value[i]) == mechanisms[i]
    ensures r.Err? ==>
      exists k :: 0 <= k < |mechanisms| && r.error == InvalidMechanismType(mechanisms[k]) &&
        ParseType(mechanisms[k]).Err? && (forall j :: 0 <= j < k ==> ParseType(mechanisms[j]).Ok?)
  {
    var toReturn := [];
    for i := 0 to |mechanisms|
      invariant |toReturn| == i
      invariant forall k :: 0 <= k < i ==> ParseType(mechanisms[k]) == Ok(toReturn[k])
    {
      var m := ParseType(mechanisms[i]);
      if m.Err? {
        return Err(m.error);
      }
      toReturn := toReturn + [m.value];
    }
    return Ok(toReturn);
  }

  /** Each known type survives printing and parsing back. */
  lemma ParseStringRoundTrip(t: MechanismType)
    requires IsKnown(t)
    ensures ParseType(String(t)) == Ok(t)
  {
    assert t.name in MechanismTypes;
  }

  /** Parsing succeeds exactly on the strings of the known types, and inverts String. */
  lemma ParseTypeInverse(s: string, t: MechanismType)
    ensures ParseType(s) == Ok(t) <==> IsKnown(t) && String(t) == s
  {
    if IsKnown(t) && String(t) == s {
      ParseStringRoundTrip(t);
    }
  }

  /** The bootstrap sequencer is logged with an underscore. */
  lemma LogStringBootstrapSequencer()
    ensures LogString(BootstrapSequencer) == "bootstrap_sequencer"
  {
  }

  /** Log strings are fixed points of the replacement: logging a logged name changes nothing. */
  lemma {:induction false} LogStringIdempotent(t: MechanismType)
    ensures LogString(MechanismType(LogString(t))) == LogString(t)
  {
    var s := LogString(t);
    var s2 := LogString(MechanismType(s));
    assert |s2| == |s|;
    forall i | 0 <= i < |s| ensures s2[i] == s[i] {
      assert s[i] != '-';
    }
  }
}
