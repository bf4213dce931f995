/** The statistics snapshot of a processor and its JSON text. The object has
    exactly two members; serde_json orders an object's keys alphabetically,
    so `processed_count` is written before `verbose`, with no whitespace. */
module StatsJson {
  import opened Results
  import opened Decimal

  datatype Stats = Stats(processedCount: nat, verbose: bool)

  const CountMember: string := "{\"processed_count\":"
  const VerboseMember: string := ",\"verbose\":"

  function BoolText(b: bool): string {
    if b then "true" else "false"
  }

  /** The compact JSON text of a snapshot. */
  function Serialize(s: Stats): (t: string)
    ensures |t| > |CountMember| && t[..|CountMember|] == CountMember && t[|t| - 1] == '}'
  {
    CountMember + Body(s)
  }

  /** Everything after the opening `{"processed_count":`. */
  function Body(s: Stats): string {
    NatToString(s.processedCount) + VerboseMember + BoolText(s.verbose) + "}"
  }

  /** Length of the run of digits that `s` starts with. */
  function DigitRun(s: string): (k: nat)
    ensures k <= |s| && AllDigits(s[..k])
    ensures k < |s| ==> !IsDigit(s[k])
    decreases |s|
  {
    if s == [] || !IsDigit(s[0]) then 0
    else
      1 + DigitRun(s[1..])
  }

  /** Reads the boolean member and the closing brace. */
  function ParseVerbose(tail: string): (r: Option<bool>)
    ensures r.Some? ==> tail == VerboseMember + BoolText(r.value) + "}"
  {
    if tail == VerboseMember + "true}" then Some(true)
    else if tail == VerboseMember + "false}" then Some(false)
    else None
  }

  lemma ParseVerboseText(b: bool)
    ensures ParseVerbose(VerboseMember + BoolText(b) + "}") == Some(b)
  {
  }

  /** Reads a snapshot back from text of exactly the shape `Serialize`
      writes; anything else (including a leading zero, which JSON forbids)
      is rejected. */
  function Parse(t: string): Option<Stats> {
    if |t| < |CountMember| || t[..|CountMember|] != CountMember then None
    else ParseBody(t[|CountMember|..])
  }

  /** Reads the count's numeral and the `verbose` member. */
  function ParseBody(rest: string): Option<Stats> {
    var k := DigitRun(rest);
    var digits := rest[..k];
    if !IsCanonical(digits) then None
    else match ParseVerbose(rest[k..])
      case None => None
      case Some(b) => Some(Stats(StringToNat(digits), b))
  }

  /** The digit run of a numeral followed by a non-digit is the numeral. */
  lemma {:induction false} DigitRunStops(d: string, tail: string)
    requires AllDigits(d) && tail != [] && !IsDigit(tail[0])
    ensures DigitRun(d + tail) == |d|
    decreases |d|
  {
    if d == [] {
      assert d + tail == tail;
    } else {
      assert (d + tail)[0] == d[0] && (d + tail)[1..] == d[1..] + tail;
      DigitRunStops(d[1..], tail);
    }
  }

  lemma ParseBodyOfBody(s: Stats)
    ensures ParseBody(Body(s)) == Some(s)
  {
    var d := NatToString(s.processedCount);
    var tail := VerboseMember + BoolText(s.verbose) + "}";
    var rest := Body(s);
    assert rest == d + tail;
    assert tail[0] == ',';
    DigitRunStops(d, tail);
    assert rest[..|d|] == d && rest[|d|..] == tail;
    ParseVerboseText(s.verbose);
    StringToNatOfNatToString(s.processedCount);
  }

  lemma BodyOfParseBody(rest: string)
    ensures ParseBody(rest).Some? ==> Body(ParseBody(rest).value) == rest
  {
    if ParseBody(rest).Some? {
      var k := DigitRun(rest);
      var digits := rest[..k];
      var tail := rest[k..];
      NatToStringOfStringToNat(digits);
      assert rest == digits + tail;
    }
  }

  /** Parsing the serialised snapshot gives the same pair back. */
  lemma ParseSerialize(s: Stats)
    ensures Parse(Serialize(s)) == Some(s)
  {
    var t := Serialize(s);
    assert t[..|CountMember|] == CountMember && t[|CountMember|..] == Body(s);
    ParseBodyOfBody(s);
  }

  /** Every text `Parse` accepts is the serialisation of what it returns, so
      the serialiser and the parser are inverse bijections. */
  lemma SerializeParse(t: string)
    ensures Parse(t).Some? ==> Serialize(Parse(t).value) == t
  {
    if Parse(t).Some? {
      assert t == CountMember + t[|CountMember|..];
      BodyOfParseBody(t[|CountMember|..]);
    }
  }

  /** Two snapshots serialise to the same text only when they are equal. */
  lemma SerializeInjective(a: Stats, b: Stats)
    ensures Serialize(a) == Serialize(b) <==> a == b
  {
    ParseSerialize(a);
    ParseSerialize(b);
  }

  /** The exact text of a snapshot after one processed item. */
  lemma SerializeAfterOneItem(verbose: bool)
    ensures verbose ==> Serialize(Stats(1, verbose)) == "{\"processed_count\":1,\"verbose\":true}"
    ensures !verbose ==> Serialize(Stats(1, verbose)) == "{\"processed_count\":1,\"verbose\":false}"
  {
    assert NatToString(1) == "1";
  }
}
