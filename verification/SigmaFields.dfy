/** The fields of a Sigma selection: keys with modifiers, the matchers made of them, and what they
    say about the text of an event. */
module SigmaFields {
  import opened Options
  import opened Text

  /** The normalized fields of an event; a field may be present and null. Values are held as
      the text that `str` gives of them. */
  type Event = map<string, Option<string>>

  /** The two library calls that are not modelled: `re.search(pattern, text, IGNORECASE)` and
      `str.lower` on arbitrary text. */
  datatype Library = Library(search: (string, string) -> bool, lower: string -> string)

  // ---------------------------------------------------------------------------
  // Reading a field and matching it.
  // ---------------------------------------------------------------------------

  datatype RawValues = ListOf(texts: seq<string>) | Scalar(text: string) | Unreadable

  datatype Body = Mapping(fields: seq<(string, RawValues)>) | NotMapping

  const KNOWN_MODIFIERS: set<string> :=
    {"contains", "startswith", "endswith", "re", "all", "windash", "cidr", "base64offset"}

  function LowerAll(words: seq<string>): (r: seq<string>)
    ensures |r| == |words|
  {
    seq(|words|, i requires 0 <= i < |words| => Lower(words[i]))
  }

  function MapField(field: string): Option<string> {
    match field
    case "Image" => Some("image")
    case "CommandLine" => Some("cmdline")
    case "ParentImage" => Some("parent_image")
    case "ParentCommandLine" => Some("parent_cmdline")
    case "User" => Some("user")
    case "SourceIp" => Some("source_ip")
    case "SrcIp" => Some("src_ip")
    case "DestinationIp" => Some("dst_ip")
    case "DstIp" => Some("dst_ip")
    case "DestinationPort" => Some("dst_port")
    case "DstPort" => Some("dst_port")
    case "LogonType" => Some("auth_type")
    case "Initiated" => Some("initiated")
    case "Protocol" => Some("proto")
    case "ComputerName" => Some("host")
    case "Workstation" => Some("host")
    case _ => None
  }

  /** The rule fields that read each field of an event. */
  lemma FieldsReading(field: string)
    ensures MapField(field) == Some("image") <==> field == "Image"
    ensures MapField(field) == Some("cmdline") <==> field == "CommandLine"
    ensures MapField(field) == Some("parent_image") <==> field == "ParentImage"
    ensures MapField(field) == Some("parent_cmdline") <==> field == "ParentCommandLine"
    ensures MapField(field) == Some("user") <==> field == "User"
    ensures MapField(field) == Some("source_ip") <==> field == "SourceIp"
    ensures MapField(field) == Some("src_ip") <==> field == "SrcIp"
    ensures MapField(field) == Some("dst_ip") <==> field in ["DestinationIp", "DstIp"]
    ensures MapField(field) == Some("dst_port") <==> field in ["DestinationPort", "DstPort"]
    ensures MapField(field) == Some("auth_type") <==> field == "LogonType"
    ensures MapField(field) == Some("initiated") <==> field == "Initiated"
    ensures MapField(field) == Some("proto") <==> field == "Protocol"
    ensures MapField(field) == Some("host") <==> field in ["ComputerName", "Workstation"]
  {
  }

  function TextsOf(raw: RawValues): seq<string> {
    match raw
    case ListOf(texts) => texts
    case Scalar(text) => [text]
    case Unreadable => []
  }

  /** One field condition, read: the event key, the modifiers, the patterns. */
  datatype FieldSpec = FieldSpec(key: string, modifiers: seq<string>, values: seq<string>)

  function ReadField(field: (string, RawValues)): Option<FieldSpec> {
    var parts := SplitAt(field.0, '|');
    var modifiers := LowerAll(parts[1..]);
    match (MapField(parts[0]), field.1)
    case (None, _) => None
    case (_, Unreadable) => None
    case (Some(key), raw) =>
      if forall m :: m in modifiers ==> m in KNOWN_MODIFIERS
      then Some(FieldSpec(key, modifiers, TextsOf(raw)))
      else None
  }

  predicate MatchOne(lib: Library, modifiers: seq<string>, raw: string, pattern: string) {
    if "re" in modifiers then lib.search(pattern, raw)
    else
      var (text, pat) := (lib.lower(raw), lib.lower(pattern));
      if "contains" in modifiers then Contains(text, pat)
      else if "startswith" in modifiers then pat <= text
      else if "endswith" in modifiers then EndsWith(text, pat)
      else text == pat
  }

  /** A field condition holds of an event that has the field, when one pattern matches it or,
      under `all`, every pattern does. */
  predicate FieldHolds(lib: Library, f: FieldSpec, ev: Event) {
    f.key in ev && ev[f.key].Some? &&
    if "all" in f.modifiers
    then forall v :: v in f.values ==> MatchOne(lib, f.modifiers, ev[f.key].value, v)
    else exists v :: v in f.values && MatchOne(lib, f.modifiers, ev[f.key].value, v)
  }

  /** The modifiers that the matcher looks for; the other three that are accepted change nothing. */
  const MATCHING: set<string> := {"contains", "startswith", "endswith", "re", "all"}

  lemma InertModifiers(lib: Library, f: FieldSpec, modifiers: seq<string>, ev: Event)
    requires forall m :: m in MATCHING ==> (m in f.modifiers <==> m in modifiers)
    ensures FieldHolds(lib, f, ev) <==> FieldHolds(lib, f.(modifiers := modifiers), ev)
  {
    if f.key in ev && ev[f.key].Some? {
      var raw := ev[f.key].value;
      forall v ensures MatchOne(lib, f.modifiers, raw, v) == MatchOne(lib, modifiers, raw, v) {
        assert "re" in MATCHING && "contains" in MATCHING && "startswith" in MATCHING && "endswith" in MATCHING;
      }
      assert "all" in MATCHING;
    }
  }

  // ---------------------------------------------------------------------------
  // What a field of a rule says, from its key on.
  // ---------------------------------------------------------------------------

  /** The key names a field and then its modifiers, with a bar before each. */
  predicate IsKey(key: string, field: string, asked: seq<string>) {
    key == JoinWith([field] + asked, '|') && FreeOf([field] + asked, '|')
  }

  predicate Asks(asked: seq<string>, modifier: string) {
    exists i :: 0 <= i < |asked| && Lower(asked[i]) == modifier
  }

  ghost predicate HoldsWithin(text: string, value: string) {
    exists before, after :: text == before + value + after
  }

  ghost predicate BeginsWith(text: string, value: string) {
    exists after :: text == value + after
  }

  ghost predicate FinishesWith(text: string, value: string) {
    exists before :: text == before + value
  }

  /** One value of the field, against the text that the event has there. A search is made on the text
      as it is; everything else ignores case. */
  ghost predicate ValueFits(lib: Library, asked: seq<string>, text: string, value: string) {
    if Asks(asked, "re") then lib.search(value, text)
    else
      var (t, v) := (lib.lower(text), lib.lower(value));
      if Asks(asked, "contains") then HoldsWithin(t, v)
      else if Asks(asked, "startswith") then BeginsWith(t, v)
      else if Asks(asked, "endswith") then FinishesWith(t, v)
      else t == v
  }

  predicate HasValue(raw: RawValues, value: string) {
    raw == Scalar(value) || (raw.ListOf? && value in raw.texts)
  }

  /** The event has the field, and one value fits it or, under `all`, every value does. */
  ghost predicate TextSays(lib: Library, field: string, asked: seq<string>, raw: RawValues, ev: Event) {
    match MapField(field)
    case None => false
    case Some(name) =>
      name in ev && ev[name].Some? &&
      if Asks(asked, "all") then forall v :: HasValue(raw, v) ==> ValueFits(lib, asked, ev[name].value, v)
      else exists v :: HasValue(raw, v) && ValueFits(lib, asked, ev[name].value, v)
  }

  ghost predicate FieldSays(lib: Library, key: string, raw: RawValues, ev: Event) {
    exists field, asked :: IsKey(key, field, asked) && TextSays(lib, field, asked, raw, ev)
  }

  /** Every modifier is one of the eight that are accepted. */
  predicate Acceptable(asked: seq<string>) {
    forall i :: 0 <= i < |asked| ==>
      Lower(asked[i]) in ["contains", "startswith", "endswith", "re", "all", "windash", "cidr", "base64offset"]
  }

  /** A known field, accepted modifiers, and values that are texts. */
  ghost predicate Readable(key: string, raw: RawValues) {
    !raw.Unreadable? && exists field, asked :: IsKey(key, field, asked) && MapField(field).Some? && Acceptable(asked)
  }

  lemma KeyParts(key: string) returns (field: string, asked: seq<string>)
    ensures IsKey(key, field, asked) && SplitAt(key, '|') == [field] + asked
  {
    var parts := SplitAt(key, '|');
    field, asked := parts[0], parts[1..];
    assert parts == [field] + asked;
    SplitJoins(key, '|');
  }

  /** A key has one field and one list of modifiers. */
  lemma KeyUnique(key: string, field: string, asked: seq<string>)
    requires IsKey(key, field, asked)
    ensures SplitAt(key, '|')[0] == field && SplitAt(key, '|')[1..] == asked
  {
    JoinSplits([field] + asked, '|');
    assert ([field] + asked)[1..] == asked;
  }

  lemma AsksLower(asked: seq<string>, modifier: string)
    ensures Asks(asked, modifier) <==> modifier in LowerAll(asked)
  {
    var lowered := LowerAll(asked);
    forall i | 0 <= i < |asked| && Lower(asked[i]) == modifier ensures modifier in lowered {
      assert lowered[i] == modifier;
    }
  }

  lemma ContainsSplits(s: string, part: string)
    ensures Contains(s, part) <==> HoldsWithin(s, part)
  {
    if Contains(s, part) {
      var i :| 0 <= i <= |s| && part <= s[i..];
      assert s == s[..i] + part + s[i + |part|..];
    }
    forall before: string, after: string | s == before + part + after ensures Contains(s, part) {
      assert part <= s[|before|..];
    }
  }

  lemma PrefixSplits(s: string, part: string)
    ensures part <= s <==> BeginsWith(s, part)
  {
    if part <= s { assert s == part + s[|part|..]; }
  }

  lemma SuffixSplits(s: string, part: string)
    ensures EndsWith(s, part) <==> FinishesWith(s, part)
  {
    if EndsWith(s, part) { assert s == s[..|s| - |part|] + part; }
  }

  lemma MatchIsFit(lib: Library, asked: seq<string>, text: string, value: string)
    ensures MatchOne(lib, LowerAll(asked), text, value) <==> ValueFits(lib, asked, text, value)
  {
    AsksLower(asked, "re");
    AsksLower(asked, "contains");
    AsksLower(asked, "startswith");
    AsksLower(asked, "endswith");
    var (t, v) := (lib.lower(text), lib.lower(value));
    ContainsSplits(t, v);
    PrefixSplits(t, v);
    SuffixSplits(t, v);
  }

  lemma KnownIsAcceptable(asked: seq<string>)
    ensures (forall m :: m in LowerAll(asked) ==> m in KNOWN_MODIFIERS) <==> Acceptable(asked)
  {
    var lowered := LowerAll(asked);
    forall i | 0 <= i < |asked| ensures lowered[i] in lowered && lowered[i] == Lower(asked[i]) {}
  }

  lemma ReadIsReadable(key: string, raw: RawValues)
    ensures ReadField((key, raw)).Some? <==> Readable(key, raw)
  {
    var field, asked := KeyParts(key);
    assert SplitAt(key, '|')[1..] == asked;
    KnownIsAcceptable(asked);
    forall f, a | IsKey(key, f, a) ensures f == field && a == asked {
      KeyUnique(key, f, a);
    }
  }

  /** The matcher of a field, made from its key and values, says of every event what its text means. */
  lemma MatcherMeans(lib: Library, key: string, raw: RawValues, ev: Event)
    requires ReadField((key, raw)).Some?
    ensures FieldHolds(lib, ReadField((key, raw)).value, ev) <==> FieldSays(lib, key, raw, ev)
  {
    var field, asked := KeyParts(key);
    assert SplitAt(key, '|')[1..] == asked;
    var f := ReadField((key, raw)).value;
    assert f.modifiers == LowerAll(asked) && MapField(field) == Some(f.key);
    AsksLower(asked, "all");
    forall v ensures v in f.values <==> HasValue(raw, v) {}
    if f.key in ev && ev[f.key].Some? {
      var text := ev[f.key].value;
      forall v ensures MatchOne(lib, f.modifiers, text, v) <==> ValueFits(lib, asked, text, v) {
        MatchIsFit(lib, asked, text, v);
      }
    }
    assert FieldHolds(lib, f, ev) <==> TextSays(lib, field, asked, raw, ev);
    forall g, a | IsKey(key, g, a) ensures g == field && a == asked {
      KeyUnique(key, g, a);
    }
  }

  lemma OneReading(lib: Library, key: string, field: string, asked: seq<string>, raw: RawValues, ev: Event)
    requires IsKey(key, field, asked)
    ensures FieldSays(lib, key, raw, ev) <==> TextSays(lib, field, asked, raw, ev)
  {
    forall g, a | IsKey(key, g, a) ensures g == field && a == asked {
      KeyUnique(key, g, a);
      KeyUnique(key, field, asked);
    }
  }

  lemma KeyOfOne(field: string, modifier: string)
    requires '|' !in field && '|' !in modifier
    ensures IsKey(field + ['|'] + modifier, field, [modifier])
  {
    assert ([field] + [modifier])[1..] == [modifier];
  }

  const ENDSWITH := "endswith"

  lemma ImageKey()
    ensures IsKey("Image|endswith", "Image", [ENDSWITH])
  {
    KeyOfOne("Image", ENDSWITH);
    assert "Image" + ['|'] + ENDSWITH == "Image|endswith";
  }

  lemma ImageField()
    ensures MapField("Image") == Some("image")
  {
  }

  lemma OnlyEndsWith()
    ensures Asks([ENDSWITH], "endswith")
    ensures !Asks([ENDSWITH], "re") && !Asks([ENDSWITH], "contains") && !Asks([ENDSWITH], "startswith")
    ensures !Asks([ENDSWITH], "all")
  {
    LowerWord(ENDSWITH);
    var asked := [ENDSWITH];
    assert asked[0] == ENDSWITH && ENDSWITH[0] == 'e' && ENDSWITH[1] == 'n';
  }

  /** What one value under `endswith` alone says. */
  lemma EndsWithSays(lib: Library, field: string, name: string, value: string, ev: Event)
    requires MapField(field) == Some(name)
    ensures TextSays(lib, field, [ENDSWITH], Scalar(value), ev) <==>
            name in ev && ev[name].Some? && FinishesWith(lib.lower(ev[name].value), lib.lower(value))
  {
    OnlyEndsWith();
    assert HasValue(Scalar(value), value);
    if name in ev && ev[name].Some? {
      assert ValueFits(lib, [ENDSWITH], ev[name].value, value) <==>
             FinishesWith(lib.lower(ev[name].value), lib.lower(value));
    }
  }

  /** A key as rules have it: an image that ends with some text. */
  lemma ImageEndsWith(lib: Library, value: string, ev: Event)
    ensures FieldSays(lib, "Image|endswith", Scalar(value), ev) <==>
            "image" in ev && ev["image"].Some?
            && FinishesWith(lib.lower(ev["image"].value), lib.lower(value))
  {
    ImageKey();
    ImageField();
    OneReading(lib, "Image|endswith", "Image", [ENDSWITH], Scalar(value), ev);
    EndsWithSays(lib, "Image", "image", value, ev);
  }
}
