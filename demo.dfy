/**
 * The pure pieces of run_demo.py: the run-file name, the protocol check, the
 * host and port read from the collector URL, and the assignment of sensor
 * types to devices. Threads, servers, sleeps and `load_config` are not modelled.
 */
module Demo {
  import opened Common
  import opened Text
  import opened FileNames

  /** The fields of `config.json` the demo reads. */
  datatype Config = Config(
    messageInterval: int, numDevices: int, protocol: string,
    httpServer: string, mqttBroker: string, mqttTopic: string)

  // ---------------------------------------------------------------------------
  // Run-file name

  /** `generate_csv_filename(config)`: `f"{message_interval}_{num_devices}_{protocol.upper()}.csv"`. */
  function CsvFilename(c: Config): string
  {
    IntToString(c.messageInterval) + "_" + IntToString(c.numDevices) + "_" + Upper(c.protocol) + ".csv"
  }

  /** `ValueError(f"Unknown protocol: {protocol}...")`, carrying the upper-cased name. */
  datatype ProtocolError = UnknownProtocol(name: string)

  /** The check `create_devices` and `start_collector` make on `config["protocol"].upper()`. */
  function ProtocolOf(name: string): (r: Result<Protocol, ProtocolError>)
    ensures r.Ok? <==> EqualsIgnoreCase(name, "HTTP") || EqualsIgnoreCase(name, "MQTT")
    ensures r.Ok? ==> ProtocolName(r.value) == Upper(name)
    ensures r.Err? ==> r.error == UnknownProtocol(Upper(name))
  {
    UpperIsIgnoreCase(name, "HTTP");
    UpperIsIgnoreCase(name, "MQTT");
    if Upper(name) == "HTTP" then Ok(HTTP)
    else if Upper(name) == "MQTT" then Ok(MQTT)
    else Err(UnknownProtocol(Upper(name)))
  }

  lemma NoDotInName(s: string)
    requires IsDigits(s) || IsUpperWord(s)
    ensures '.' !in s
  {
    forall i | 0 <= i < |s| ensures s[i] != '.' { }
  }

  /**
   * The analysis reads back what the demo writes: the file named for a
   * configuration with a non-negative interval and device count and a known
   * protocol decodes to that configuration's key.
   */
  lemma CsvFilenameRoundTrip(c: Config)
    requires c.messageInterval >= 0 && c.numDevices >= 0 && ProtocolOf(c.protocol).Ok?
    ensures ParseFilename(CsvFilename(c)) == Some(ExperimentKey(c.messageInterval, c.numDevices, ProtocolOf(c.protocol).value))
  {
    var a, b, t := NatToString(c.messageInterval), NatToString(c.numDevices), Upper(c.protocol);
    var p := ProtocolOf(c.protocol).value;
    assert t == ProtocolName(p);
    assert t == "HTTP" || t == "MQTT";
    assert CsvFilename(c) == a + "_" + b + "_" + t + ".csv";
    GeneratedNameMatches(a, b, t);
    ParseFilenameComplete(CsvFilename(c), a, b, t);
    NatToStringValue(c.messageInterval);
    NatToStringValue(c.numDevices);
    assert TokenProtocol(t) == p;
  }

  lemma GeneratedNameMatches(a: string, b: string, t: string)
    requires IsNumeral(a) && IsNumeral(b) && (t == "HTTP" || t == "MQTT")
    ensures NameMatches(a + "_" + b + "_" + t + ".csv", a, b, t)
  {
    var body := a + "_" + b + "_" + t;
    assert '.' !in body by {
      NoDotInName(a);
      NoDotInName(b);
      NoDotInName(t);
    }
    RemoveAllSuffix(body, ".csv");
    assert EqualsIgnoreCase(t, t);
  }

  // ---------------------------------------------------------------------------
  // Collector address

  datatype Address = Address(host: string, port: int)

  /** The `ValueError`s of the address parse: too many `:` to unpack, or a port `int()` rejects. */
  datatype AddressError = TooManyColons | BadPort(text: string)

  /** Text `int()` accepts in this model: an optional sign and one or more ASCII digits. */
  predicate IsIntLiteral(s: string)
  {
    IsNumeral(s) || (|s| >= 2 && (s[0] == '+' || s[0] == '-') && IsNumeral(s[1..]))
  }

  /** `int(s)`. */
  function ParseInt(s: string): (r: Option<int>)
    ensures r.Some? <==> IsIntLiteral(s)
  {
    if IsNumeral(s) then Some(Value(s))
    else if |s| >= 2 && s[0] == '+' && IsNumeral(s[1..]) then Some(Value(s[1..]))
    else if |s| >= 2 && s[0] == '-' && IsNumeral(s[1..]) then Some(-(Value(s[1..]) as int))
    else None
  }

  /** `int(str(i)) == i`. */
  lemma ParseIntOfString(i: int)
    ensures ParseInt(IntToString(i)) == Some(i)
  {
    if i < 0 {
      var s := IntToString(i);
      assert s[1..] == NatToString(-i);
      NatToStringValue(-i);
    } else {
      NatToStringValue(i);
    }
  }

  /** The URL with a leading `http://` removed. */
  function StripScheme(url: string): string
  {
    if StartsWith(url, "http://") then url[7..] else url
  }

  /**
   * The host and port `start_collector` derives from `config["http_server"]`.
   * Without a `:` the whole rest is the host and the port is 5000; with one,
   * the host is what precedes it and the port is the integer before the next
   * `/`; with more than one, unpacking fails.
   */
  function CollectorAddress(url: string): (r: Result<Address, AddressError>)
    ensures var s := StripScheme(url);
      && (Count(s, ':') == 0 ==> r == Ok(Address(s, 5000)))
      && (Count(s, ':') >= 2 ==> r == Err(TooManyColons))
      && (Count(s, ':') == 1 ==>
            var port := Before(After(s, ':'), '/');
            && (r.Ok? <==> IsIntLiteral(port))
            && (r.Ok? ==> r.value == Address(Before(s, ':'), ParseInt(port).value))
            && (r.Err? ==> r == Err(BadPort(port))))
  {
    var s := StripScheme(url);
    if ':' !in s then
      CountAbsent(s, ':');
      Ok(Address(s, 5000))
    else
      var parts := Split(s, ':');
      if |parts| != 2 then Err(TooManyColons)
      else
        var i := IndexOf(s, ':');
        assert parts == Split(s, ':') == [s[..i]] + Split(s[i + 1..], ':');
        assert parts[1] == s[i + 1..] by {
          assert |Split(s[i + 1..], ':')| == 1;
          assert Join(Split(s[i + 1..], ':'), ':') == s[i + 1..];
        }
        var port := Before(parts[1], '/');
        var p := ParseInt(port);
        if p.None? then Err(BadPort(port)) else Ok(Address(parts[0], p.value))
  }

  lemma NoColonInNumeral(s: string)
    requires IsNumeral(s)
    ensures ':' !in s && '/' !in s
  {
    forall i | 0 <= i < |s| ensures s[i] != ':' && s[i] != '/' { }
  }

  /** The first `:` of `host:rest` splits it back into `host` and `rest`. */
  lemma SplitAtColon(host: string, rest: string)
    requires ':' !in host && ':' !in rest
    ensures var s := host + [':'] + rest;
      Count(s, ':') == 1 && Before(s, ':') == host && After(s, ':') == rest
  {
    var s := host + [':'] + rest;
    IndexOfAfterPrefix(host, ':', rest);
    assert s[..|host|] == host;
    assert s[|host| + 1..] == rest;
    CountAt(s, ':', |host|);
    CountAbsent(rest, ':');
  }

  /** The port digits end where the path begins. */
  lemma PortBeforePath(digits: string, path: string)
    requires IsNumeral(digits)
    requires path == [] || path[0] == '/'
    ensures Before(digits + path, '/') == digits
  {
    NoColonInNumeral(digits);
    if path == [] {
      assert digits + path == digits;
    } else {
      IndexOfAfterPrefix(digits, '/', path[1..]);
      assert digits + path == digits + ['/'] + path[1..];
    }
  }

  /** Removing the scheme of `http://rest` leaves `rest`. */
  lemma StripSchemeOf(rest: string)
    ensures StripScheme("http://" + rest) == rest
  {
    var url := "http://" + rest;
    assert url[..7] == "http://";
  }

  /** A URL whose one `:` is followed by an integer literal yields the host before it and that integer. */
  lemma AddressOfOneColon(s: string, port: int)
    requires Count(s, ':') == 1 && ParseInt(Before(After(s, ':'), '/')) == Some(port)
    ensures CollectorAddress("http://" + s) == Ok(Address(Before(s, ':'), port))
  {
    StripSchemeOf(s);
  }

  /** `"http://{host}:{port}{path}"` yields that host and port back, for a host and path without `:`. */
  lemma CollectorAddressRoundTrip(host: string, port: nat, path: string)
    requires ':' !in host && ':' !in path
    requires path == [] || path[0] == '/'
    ensures CollectorAddress("http://" + host + ":" + NatToString(port) + path) == Ok(Address(host, port))
  {
    var digits := NatToString(port);
    var s := host + [':'] + (digits + path);
    assert "http://" + host + ":" + digits + path == "http://" + s;
    NoColonInNumeral(digits);
    SplitAtColon(host, digits + path);
    PortBeforePath(digits, path);
    NatToStringValue(port);
    AddressOfOneColon(s, port);
  }

  // ---------------------------------------------------------------------------
  // Devices

  datatype Sensor = Temperature | Humidity | Light

  /** Where a device sends its readings: the HTTP collector URL, or the MQTT broker and topic. */
  datatype Link = HttpLink(collectorUrl: string) | MqttLink(broker: string, topic: string)

  datatype Device = Device(number: nat, sensor: Sensor, interval: int, link: Link)

  /** `sensor_types[i % len(sensor_types)]`. */
  function SensorFor(i: nat): Sensor
  {
    var r := i % 3;
    if r == 0 then Temperature else if r == 1 then Humidity else Light
  }

  function LinkFor(c: Config, p: Protocol): Link
  {
    match p
    case HTTP => HttpLink(c.httpServer)
    case MQTT => MqttLink(c.mqttBroker, c.mqttTopic)
  }

  /** The loop `for i in range(num_devices)` of one protocol branch. */
  method SpawnDevices(n: int, interval: int, link: Link) returns (devices: seq<Device>)
    ensures |devices| == if n < 0 then 0 else n
    ensures forall k :: 0 <= k < |devices| ==> devices[k] == Device(k + 1, SensorFor(k), interval, link)
  {
    devices := [];
    var i := 0;
    while i < n
      invariant 0 <= i && (n >= 0 ==> i <= n) && (n < 0 ==> i == 0)
      invariant |devices| == i
      invariant forall k :: 0 <= k < i ==> devices[k] == Device(k + 1, SensorFor(k), interval, link)
    {
      devices := devices + [Device(i + 1, SensorFor(i), interval, link)];
      i := i + 1;
    }
  }

  /**
   * `create_devices(config)`: an unknown protocol raises before any device
   * exists; otherwise device `k` (from 0) is number `k + 1` with sensor type
   * `k mod 3`, and there are `max(0, num_devices)` of them.
   */
  method CreateDevices(c: Config) returns (r: Result<seq<Device>, ProtocolError>)
    ensures ProtocolOf(c.protocol).Err? ==> r == Err(ProtocolOf(c.protocol).error)
    ensures ProtocolOf(c.protocol).Ok? ==> r.Ok? && |r.value| == if c.numDevices < 0 then 0 else c.numDevices
    ensures r.Ok? ==> forall k :: 0 <= k < |r.value| ==>
              r.value[k] == Device(k + 1, SensorFor(k), c.messageInterval, LinkFor(c, ProtocolOf(c.protocol).value))
  {
    var protocol := Upper(c.protocol);
    if protocol == "HTTP" {
      var devices := SpawnDevices(c.numDevices, c.messageInterval, HttpLink(c.httpServer));
      return Ok(devices);
    } else if protocol == "MQTT" {
      var devices := SpawnDevices(c.numDevices, c.messageInterval, MqttLink(c.mqttBroker, c.mqttTopic));
      return Ok(devices);
    } else {
      return Err(UnknownProtocol(protocol));
    }
  }

  /** The sensor types of the first `n` devices. */
  function Sensors(n: nat): (s: seq<Sensor>)
    ensures |s| == n
  {
    if n == 0 then [] else Sensors(n - 1) + [SensorFor(n - 1)]
  }

  function Tally(s: seq<Sensor>, t: Sensor): nat
  {
    if s == [] then 0 else Tally(s[..|s| - 1], t) + if s[|s| - 1] == t then 1 else 0
  }

  lemma TallySnoc(s: seq<Sensor>, x: Sensor, t: Sensor)
    ensures Tally(s + [x], t) == Tally(s, t) + if x == t then 1 else 0
  {
    assert (s + [x])[..|s|] == s;
  }

  lemma ThirdsStep(m: nat)
    ensures m % 3 == 0 ==> (m + 3) / 3 == (m + 2) / 3 + 1 && (m + 2) / 3 == (m + 1) / 3 && (m + 1) / 3 == m / 3
    ensures m % 3 == 1 ==> (m + 3) / 3 == (m + 2) / 3 && (m + 2) / 3 == (m + 1) / 3 + 1 && (m + 1) / 3 == m / 3
    ensures m % 3 == 2 ==> (m + 3) / 3 == (m + 2) / 3 && (m + 2) / 3 == (m + 1) / 3 && (m + 1) / 3 == m / 3 + 1
  {
  }

  /** The round robin is balanced: of `n` devices, `ceil(n/3)` measure temperature, and the counts differ by at most one. */
  lemma {:induction false} RoundRobinBalanced(n: nat)
    ensures Tally(Sensors(n), Temperature) == (n + 2) / 3
    ensures Tally(Sensors(n), Humidity) == (n + 1) / 3
    ensures Tally(Sensors(n), Light) == n / 3
  {
    if n > 0 {
      var m := n - 1;
      RoundRobinBalanced(m);
      var x := SensorFor(m);
      TallySnoc(Sensors(m), x, Temperature);
      TallySnoc(Sensors(m), x, Humidity);
      TallySnoc(Sensors(m), x, Light);
      ThirdsStep(m);
    }
  }
}
