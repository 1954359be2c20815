/** The telemetry log of the device-log page: the most recent raw messages. */
module LogViewer {

  datatype LogEntry = LogEntry(timestamp: string, topic: string, payload: string, source: string)

  /** The number of entries the log is meant to keep. */
  const MaxLogs: nat := 200

  /** `s.slice(-n)`: the last `n` entries, or all of them when there are fewer. */
  function LastN<T>(s: seq<T>, n: nat): (r: seq<T>)
    ensures |r| == if |s| <= n then |s| else n
    ensures r == s[|s| - |r|..]
  {
    if |s| <= n then s else s[|s| - n..]
  }

  /** The append as the page writes it: the last 200 old entries, then the new one. */
  function AppendLogAsWritten(logs: seq<LogEntry>, e: LogEntry): (r: seq<LogEntry>)
    ensures |r| == (if |logs| <= MaxLogs then |logs| else MaxLogs) + 1
    ensures r[|r| - 1] == e
    ensures r[..|r| - 1] == LastN(logs, MaxLogs)
  {
    LastN(logs, MaxLogs) + [e]
  }

  /** Once the log is full, the written append holds one entry more than intended. */
  lemma AsWrittenExceedsLimit(logs: seq<LogEntry>, e: LogEntry)
    requires |logs| >= MaxLogs
    ensures |AppendLogAsWritten(logs, e)| == MaxLogs + 1
  {
  }

  /** The append as intended: the last 200 entries of the log with the new one added. */
  function AppendLog(logs: seq<LogEntry>, e: LogEntry): (r: seq<LogEntry>)
    ensures |r| <= MaxLogs
    ensures |r| == if |logs| < MaxLogs then |logs| + 1 else MaxLogs
    ensures r[|r| - 1] == e
    ensures r == (logs + [e])[|logs| + 1 - |r|..]
  {
    LastN(logs + [e], MaxLogs)
  }

  /** Keeping only the last 200 loses nothing later appends need: the log is always the last 200 messages received. */
  lemma AppendLogWindow(received: seq<LogEntry>, e: LogEntry)
    ensures AppendLog(LastN(received, MaxLogs), e) == LastN(received + [e], MaxLogs)
  {
    var kept := LastN(received, MaxLogs);
    var all := received + [e];
    var r := AppendLog(kept, e);
    var want := LastN(all, MaxLogs);
    assert |r| == |want|;
    forall i | 0 <= i < |r| ensures r[i] == want[i] {
      assert r[i] == (kept + [e])[|kept| + 1 - |r| + i];
      assert want[i] == all[|all| - |want| + i];
    }
  }

  /** The page's log state. */
  class TelemetryLog {
    var logs: seq<LogEntry>

    ghost predicate Valid()
      reads this
    {
      |logs| <= MaxLogs
    }

    constructor ()
      ensures Valid() && logs == []
    {
      logs := [];
    }

    /** A message arrived; `e` carries the clock's timestamp. */
    method Append(e: LogEntry)
      requires Valid()
      modifies this
      ensures Valid()
      ensures logs == AppendLog(old(logs), e)
    {
      logs := LastN(logs + [e], MaxLogs);
    }

    method Clear()
      modifies this
      ensures Valid() && logs == []
    {
      logs := [];
    }
  }
}
