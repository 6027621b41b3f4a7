/**
 * The run-file naming convention `<interval>_<devices>_<PROTOCOL>.csv` and its
 * decoder `parse_filename` (analyze_experiments.py).
 */
module FileNames {
  import opened Common
  import opened Text

  /** The two transport protocols; the decoder only ever produces these. */
  datatype Protocol = HTTP | MQTT

  /** The upper-case name the source stores in a key. */
  function ProtocolName(p: Protocol): (name: string)
    ensures IsUpperWord(name) && |name| == 4
  {
    match p
    case HTTP => "HTTP"
    case MQTT => "MQTT"
  }

  /** One experimental configuration: sending interval (s), device count, protocol. */
  datatype ExperimentKey = ExperimentKey(interval: nat, devices: nat, protocol: Protocol)

  /** The regex group `(HTTP|MQTT)` under `re.IGNORECASE`, followed by `.upper()`. */
  function ProtocolToken(t: string): (p: Option<Protocol>)
    ensures p.Some? ==> EqualsIgnoreCase(t, ProtocolName(p.value))
    ensures p.None? ==> !EqualsIgnoreCase(t, "HTTP") && !EqualsIgnoreCase(t, "MQTT")
  {
    UpperIsIgnoreCase(t, "HTTP");
    UpperIsIgnoreCase(t, "MQTT");
    if Upper(t) == "HTTP" then Some(HTTP)
    else if Upper(t) == "MQTT" then Some(MQTT)
    else None
  }

  /** `filename.replace('.csv', '')`. */
  function BaseName(name: string): string
  {
    RemoveAll(name, ".csv")
  }

  /** The text the anchored pattern must cover: Python's `$` also matches just before one final newline. */
  function Anchored(base: string): string
  {
    if |base| > 0 && base[|base| - 1] == '\n' then base[..|base| - 1] else base
  }

  /** `parse_filename`: the key encoded by a run-file name, or None when the name does not match. */
  function ParseFilename(name: string): Option<ExperimentKey>
  {
    var parts := Split(Anchored(BaseName(name)), '_');
    if |parts| == 3 && IsNumeral(parts[0]) && IsNumeral(parts[1]) && ProtocolToken(parts[2]).Some? then
      Some(ExperimentKey(Value(parts[0]), Value(parts[1]), ProtocolToken(parts[2]).value))
    else
      None
  }

  /**
   * The pattern `^(\d+)_(\d+)_(HTTP|MQTT)$` with IGNORECASE, matched against the
   * name with `.csv` removed, written as a relation on its three groups.
   */
  ghost predicate NameMatches(name: string, a: string, b: string, t: string)
  {
    var base := BaseName(name);
    && (base == a + "_" + b + "_" + t || base == a + "_" + b + "_" + t + "\n")
    && IsNumeral(a) && IsNumeral(b)
    && (EqualsIgnoreCase(t, "HTTP") || EqualsIgnoreCase(t, "MQTT"))
  }

  /** The protocol a matched third group names. */
  function TokenProtocol(t: string): Protocol
  {
    if EqualsIgnoreCase(t, "HTTP") then HTTP else MQTT
  }

  lemma NoUnderscoreInDigits(s: string)
    requires IsDigits(s)
    ensures '_' !in s
  {
    forall i | 0 <= i < |s| ensures s[i] != '_' {
      assert IsDigit(s[i]);
    }
  }

  lemma NoUnderscoreInToken(t: string)
    requires EqualsIgnoreCase(t, "HTTP") || EqualsIgnoreCase(t, "MQTT")
    ensures '_' !in t && |t| == 4 && t[3] != '\n'
  {
    var w := if EqualsIgnoreCase(t, "HTTP") then "HTTP" else "MQTT";
    forall i | 0 <= i < |t| ensures t[i] != '_' && t[i] != '\n' {
      assert LowerChar(t[i]) == LowerChar(w[i]);
    }
  }

  lemma SplitGroups(a: string, b: string, t: string)
    requires '_' !in a && '_' !in b && '_' !in t
    ensures Split(a + "_" + b + "_" + t, '_') == [a, b, t]
  {
    assert [a, b, t][1..] == [b, t] && [b, t][1..] == [t];
    assert Join([t], '_') == t;
    assert Join([b, t], '_') == b + "_" + t;
    assert Join([a, b, t], '_') == a + "_" + b + "_" + t;
    SplitJoin([a, b, t], '_');
  }

  lemma TokenDecodes(t: string)
    requires EqualsIgnoreCase(t, "HTTP") || EqualsIgnoreCase(t, "MQTT")
    ensures ProtocolToken(t) == Some(TokenProtocol(t))
  {
    if !EqualsIgnoreCase(t, "HTTP") {
      assert ProtocolToken(t) != Some(HTTP);
    }
  }

  lemma AnchoredBody(base: string, body: string)
    requires |body| > 0 && body[|body| - 1] != '\n'
    requires base == body || base == body + "\n"
    ensures Anchored(base) == body
  {
    if base == body + "\n" {
      assert base[..|base| - 1] == body;
    }
  }

  /** Every name the pattern matches decodes to its groups, with the protocol upper-cased. */
  lemma ParseFilenameComplete(name: string, a: string, b: string, t: string)
    requires NameMatches(name, a, b, t)
    ensures ParseFilename(name) == Some(ExperimentKey(Value(a), Value(b), TokenProtocol(t)))
  {
    var body := a + "_" + b + "_" + t;
    NoUnderscoreInDigits(a);
    NoUnderscoreInDigits(b);
    NoUnderscoreInToken(t);
    assert body[|body| - 1] == t[3];
    AnchoredBody(BaseName(name), body);
    SplitGroups(a, b, t);
    TokenDecodes(t);
  }

  /** Three parts joined by `_`. */
  lemma JoinThree(parts: seq<string>)
    requires |parts| == 3
    ensures Join(parts, '_') == parts[0] + "_" + parts[1] + "_" + parts[2]
  {
    assert parts[1..][1..] == [parts[2]];
    assert Join(parts[1..][1..], '_') == parts[2];
    assert Join(parts[1..], '_') == parts[1] + "_" + parts[2];
  }

  /** Every name that decodes matches the pattern, and the key is made of its groups. */
  lemma ParseFilenameSound(name: string)
    requires ParseFilename(name).Some?
    ensures exists a, b, t ::
              NameMatches(name, a, b, t) &&
              ParseFilename(name).value == ExperimentKey(Value(a), Value(b), TokenProtocol(t))
  {
    var base := BaseName(name);
    var parts := Split(Anchored(base), '_');
    var a, b, t := parts[0], parts[1], parts[2];
    JoinThree(parts);
    assert Anchored(base) == a + "_" + b + "_" + t;
    assert base == Anchored(base) || base == Anchored(base) + "\n";
    assert ProtocolToken(t).value == TokenProtocol(t);
    assert NameMatches(name, a, b, t);
  }

  /** A file named `bogus.csv` is not a run file. */
  lemma BogusIsSkipped()
    ensures ParseFilename("bogus.csv") == None
  {
    assert "bogus.csv" == "bogus" + ".csv";
    RemoveAllSuffix("bogus", ".csv");
    assert Anchored("bogus") == "bogus";
    SplitJoin(["bogus"], '_');
    assert Split("bogus", '_') == ["bogus"];
  }
}
