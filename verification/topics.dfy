/**
 * MQTT topic handling of the telemetry subscriber: a topic is split on '/'
 * exactly as JavaScript's `String.prototype.split` does, and a telemetry
 * topic has the four segments `fernhill`, `bins`, `<id>`, `telemetry`.
 */
module Topics {
  import opened Options

  const Separator: char := '/'

  /** `s.split(sep)`: the pieces between separators; always at least one piece, none containing `sep`. */
  function Split(s: string, sep: char): (parts: seq<string>)
    ensures |parts| >= 1
    ensures forall i :: 0 <= i < |parts| ==> sep !in parts[i]
    decreases |s|
  {
    if |s| == 0 then [""]
    else
      var rest := Split(s[1..], sep);
      if s[0] == sep then [""] + rest
      else [[s[0]] + rest[0]] + rest[1..]
  }

  /** `parts.join(sep)`. */
  function Join(parts: seq<string>, sep: char): string
    requires |parts| >= 1
    decreases |parts|
  {
    if |parts| == 1 then parts[0] else parts[0] + [sep] + Join(parts[1..], sep)
  }

  /** Joining the pieces of a split gives back the original string. */
  lemma {:induction false} JoinSplit(s: string, sep: char)
    ensures Join(Split(s, sep), sep) == s
    decreases |s|
  {
    if |s| > 0 {
      var rest := Split(s[1..], sep);
      JoinSplit(s[1..], sep);
      if s[0] == sep {
        assert Split(s, sep) == [""] + rest;
        assert ([""] + rest)[1..] == rest;
        assert s == [sep] + s[1..];
      } else {
        var parts := Split(s, sep);
        assert parts == [[s[0]] + rest[0]] + rest[1..];
        if |rest| == 1 {
          assert s == [s[0]] + s[1..];
        } else {
          assert parts[1..] == rest[1..];
          assert Join(rest, sep) == rest[0] + [sep] + Join(rest[1..], sep);
          assert s == [s[0]] + s[1..];
        }
      }
    }
  }

  /** A string without separators splits into itself alone. */
  lemma {:induction false} SplitNoSeparator(a: string, sep: char)
    requires sep !in a
    ensures Split(a, sep) == [a]
    decreases |a|
  {
    if |a| > 0 {
      SplitNoSeparator(a[1..], sep);
      assert [a[0]] + a[1..] == a;
    }
  }

  /** The first separator after a separator-free prefix cuts that prefix off as the first piece. */
  lemma {:induction false} SplitAtSeparator(a: string, sep: char, b: string)
    requires sep !in a
    ensures Split(a + [sep] + b, sep) == [a] + Split(b, sep)
    decreases |a|
  {
    var s := a + [sep] + b;
    if |a| == 0 {
      assert s[0] == sep && s[1..] == b;
    } else {
      assert s[1..] == a[1..] + [sep] + b;
      SplitAtSeparator(a[1..], sep, b);
      assert s[0] == a[0] && [a[0]] + a[1..] == a;
    }
  }

  /** Splitting the join of separator-free pieces gives back the pieces. */
  lemma {:induction false} SplitJoin(parts: seq<string>, sep: char)
    requires |parts| >= 1
    requires forall i :: 0 <= i < |parts| ==> sep !in parts[i]
    ensures Split(Join(parts, sep), sep) == parts
    decreases |parts|
  {
    if |parts| == 1 {
      SplitNoSeparator(parts[0], sep);
    } else {
      SplitJoin(parts[1..], sep);
      SplitAtSeparator(parts[0], sep, Join(parts[1..], sep));
      assert [parts[0]] + parts[1..] == parts;
    }
  }

  /** The topic a bin publishes its telemetry on. */
  function TelemetryTopic(deviceId: string): string {
    "fernhill/bins/" + deviceId + "/telemetry"
  }

  /**
   * The device id of a telemetry topic, or None when the topic does not
   * split into exactly `fernhill`, `bins`, `<id>`, `telemetry`.
   */
  function ParseTopic(topic: string): (id: Option<string>)
    ensures id.Some? ==> Separator !in id.value
  {
    var parts := Split(topic, Separator);
    if |parts| == 4 && parts[0] == "fernhill" && parts[1] == "bins" && parts[3] == "telemetry"
    then Some(parts[2])
    else None
  }

  lemma TelemetryTopicIsJoin(deviceId: string)
    ensures TelemetryTopic(deviceId) == Join(["fernhill", "bins", deviceId, "telemetry"], Separator)
  {
    var parts := ["fernhill", "bins", deviceId, "telemetry"];
    assert parts[1..][1..][1..] == ["telemetry"];
    assert parts[1..][1..] == [deviceId, "telemetry"];
    assert parts[1..] == ["bins", deviceId, "telemetry"];
    assert Join(parts[1..][1..], Separator) == deviceId + "/telemetry";
    assert Join(parts[1..], Separator) == "bins/" + deviceId + "/telemetry";
  }

  /** A topic is accepted for `deviceId` exactly when it is that device's telemetry topic and the id has no '/'. */
  lemma ParseTopicIff(topic: string, deviceId: string)
    ensures ParseTopic(topic) == Some(deviceId) <==>
            topic == TelemetryTopic(deviceId) && Separator !in deviceId
  {
    var lit := ["fernhill", "bins", deviceId, "telemetry"];
    TelemetryTopicIsJoin(deviceId);
    if topic == TelemetryTopic(deviceId) && Separator !in deviceId {
      assert "fernhill"[0] != Separator;
      assert Separator !in "fernhill" && Separator !in "bins" && Separator !in "telemetry";
      SplitJoin(lit, Separator);
    }
    if ParseTopic(topic) == Some(deviceId) {
      var parts := Split(topic, Separator);
      JoinSplit(topic, Separator);
      assert parts == lit;
    }
  }
}
