/**
 * The client's logger: every call records one entry in an in-memory
 * queue that holds at most the 100 most recent entries, oldest first.
 * Console output, which depends on the build mode and the level, is not
 * part of this model; the time stamp is the clock reading passed in.
 */
module Logging {
  import opened Wrappers
  import opened Json

  datatype Level = Debug | Info | Warn | Error

  datatype LogEntry = LogEntry(level: Level, message: string, timestamp: int, context: Option<string>, data: JsValue)

  /** `maxLogs`. */
  const MaxLogs: nat := 100

  /** The default `count` of `getRecentLogs`. */
  const DefaultRecent: int := 50

  /** The last `n` elements of `s`, or all of `s` when it is shorter. */
  function Last<T>(s: seq<T>, n: nat): (r: seq<T>)
    ensures |r| == if |s| < n then |s| else n
  {
    if |s| < n then s else s[|s| - n..]
  }

  /** `logs.push(entry)` followed, past the bound, by `logs.shift()`. */
  function Record(logs: seq<LogEntry>, entry: LogEntry): (r: seq<LogEntry>)
    requires |logs| <= MaxLogs
    ensures |r| <= MaxLogs && |r| > 0 && r[|r| - 1] == entry
    ensures |logs| < MaxLogs ==> r == logs + [entry]
    ensures |logs| == MaxLogs ==> r == logs[1..] + [entry]
  {
    var pushed := logs + [entry];
    if |pushed| > MaxLogs then pushed[1..] else pushed
  }

  /** Recording entries one after another. */
  function RecordAll(logs: seq<LogEntry>, entries: seq<LogEntry>): (r: seq<LogEntry>)
    requires |logs| <= MaxLogs
    ensures |r| <= MaxLogs
    decreases |entries|
  {
    if |entries| == 0 then logs
    else Record(RecordAll(logs, entries[..|entries| - 1]), entries[|entries| - 1])
  }

  /** Recording one more entry after keeping the last `MaxLogs`: still the last `MaxLogs`, now with the entry. */
  lemma {:induction false} RecordLast(s: seq<LogEntry>, entry: LogEntry)
    ensures Record(Last(s, MaxLogs), entry) == Last(s + [entry], MaxLogs)
  {
    var s' := s + [entry];
    if |s| >= MaxLogs {
      assert Last(s, MaxLogs)[1..] + [entry] == s'[|s'| - MaxLogs..];
    }
  }

  /**
   * However many entries are recorded, the queue holds exactly the most
   * recent `MaxLogs` of everything recorded, in the order recorded.
   */
  lemma {:induction false} RecordAllKeepsLatest(logs: seq<LogEntry>, entries: seq<LogEntry>)
    requires |logs| <= MaxLogs
    ensures RecordAll(logs, entries) == Last(logs + entries, MaxLogs)
    decreases |entries|
  {
    if |entries| == 0 {
      assert logs + entries == logs;
    } else {
      var init := entries[..|entries| - 1];
      var entry := entries[|entries| - 1];
      RecordAllKeepsLatest(logs, init);
      RecordLast(logs + init, entry);
      assert logs + init + [entry] == logs + entries;
    }
  }

  /** `s.slice(start)` for a whole number `start`: a negative start counts from the end. */
  function SliceFrom<T>(s: seq<T>, start: int): (r: seq<T>)
    ensures |r| <= |s| && r == s[|s| - |r|..]
  {
    var k := if start < 0 then (if |s| + start < 0 then 0 else |s| + start)
             else if start < |s| then start else |s|;
    s[k..]
  }

  class Logger {
    var logs: seq<LogEntry>

    ghost predicate Valid()
      reads this
    {
      |logs| <= MaxLogs
    }

    constructor()
      ensures Valid() && logs == []
    {
      logs := [];
    }

    /** `log`: records one entry. */
    method Log(level: Level, message: string, now: int, context: Option<string>, data: JsValue)
      requires Valid()
      modifies this
      ensures Valid()
      ensures logs == Record(old(logs), LogEntry(level, message, now, context, data))
    {
      logs := logs + [LogEntry(level, message, now, context, data)];
      if |logs| > MaxLogs {
        logs := logs[1..];
      }
    }

    /** `debug`. */
    method Debug(message: string, now: int, context: Option<string>, data: JsValue)
      requires Valid()
      modifies this
      ensures Valid()
      ensures logs == Record(old(logs), LogEntry(Level.Debug, message, now, context, data))
    {
      Log(Level.Debug, message, now, context, data);
    }

    /** `info`. */
    method Info(message: string, now: int, context: Option<string>, data: JsValue)
      requires Valid()
      modifies this
      ensures Valid()
      ensures logs == Record(old(logs), LogEntry(Level.Info, message, now, context, data))
    {
      Log(Level.Info, message, now, context, data);
    }

    /** `warn`. */
    method Warn(message: string, now: int, context: Option<string>, data: JsValue)
      requires Valid()
      modifies this
      ensures Valid()
      ensures logs == Record(old(logs), LogEntry(Level.Warn, message, now, context, data))
    {
      Log(Level.Warn, message, now, context, data);
    }

    /** `error`. */
    method Error(message: string, now: int, context: Option<string>, data: JsValue)
      requires Valid()
      modifies this
      ensures Valid()
      ensures logs == Record(old(logs), LogEntry(Level.Error, message, now, context, data))
    {
      Log(Level.Error, message, now, context, data);
    }

    /** `socketEvent`: a debug entry in the WebSocket context. */
    method SocketEvent(eventName: string, now: int, data: JsValue)
      requires Valid()
      modifies this
      ensures Valid()
      ensures logs == Record(old(logs), LogEntry(Level.Debug, "Socket event: " + eventName, now, Some("WebSocket"), data))
    {
      Debug("Socket event: " + eventName, now, Some("WebSocket"), data);
    }

    /** `socketError`: an error entry in the WebSocket context, carrying the error as its data. */
    method SocketError(error: JsValue, operation: string, now: int)
      requires Valid()
      modifies this
      ensures Valid()
      ensures logs == Record(old(logs),
        LogEntry(Level.Error, "Socket operation failed: " + operation, now, Some("WebSocket"), error))
    {
      Error("Socket operation failed: " + operation, now, Some("WebSocket"), error);
    }

    /** `tileUpdate`: a debug entry in the Tile System context. */
    method TileUpdate(message: string, now: int, data: JsValue)
      requires Valid()
      modifies this
      ensures Valid()
      ensures logs == Record(old(logs), LogEntry(Level.Debug, message, now, Some("Tile System"), data))
    {
      Debug(message, now, Some("Tile System"), data);
    }

    /** `gameEvent`: an info entry in the Game context. */
    method GameEvent(event: string, now: int, data: JsValue)
      requires Valid()
      modifies this
      ensures Valid()
      ensures logs == Record(old(logs), LogEntry(Level.Info, "Game event: " + event, now, Some("Game"), data))
    {
      Info("Game event: " + event, now, Some("Game"), data);
    }

    /**
     * `getRecentLogs(count)`, i.e. `logs.slice(-count)`: a suffix of the
     * queue holding its last `count` entries. Since `-0` is `0`, a count
     * of zero gives the whole queue; a negative count drops that many
     * entries from the front.
     */
    function GetRecentLogs(count: int): (r: seq<LogEntry>)
      reads this
      ensures |r| <= |logs| && r == logs[|logs| - |r|..]
      ensures count > 0 ==> |r| == if count < |logs| then count else |logs|
      ensures count == 0 ==> r == logs
      ensures count < 0 ==> |r| == if |logs| + count < 0 then 0 else |logs| + count
    {
      SliceFrom(logs, -count)
    }

    /** `getRecentLogs()` with no argument: the last 50 entries, or all of them when there are fewer. */
    function DefaultRecentLogs(): (r: seq<LogEntry>)
      reads this
      ensures |r| == if |logs| < 50 then |logs| else 50
      ensures r == logs[|logs| - |r|..]
    {
      GetRecentLogs(DefaultRecent)
    }

    /** `clearLogs`. */
    method ClearLogs()
      modifies this
      ensures Valid() && logs == []
    {
      logs := [];
    }
  }
}
